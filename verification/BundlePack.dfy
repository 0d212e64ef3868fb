/** The bucket queue and the block loop of tools/pack_layout_bundle.cpp, updating their arrays in place. */
module BundlePack {
  import opened Common
  import opened Counting
  import opened Numberers
  import opened BundleSpec
  import opened Relabel

  const TOP: nat := 66

  // ------------------------------------------------------------ the queue on values

  function KeyAt(hot: seq<bool>, rem: seq<nat>, u: nat): nat
    requires u < |hot| == |rem|
  {
    Key(hot[u], rem[u])
  }

  /** Entries sit on their node's side, counts fit the buckets, and nothing lies above the cursor. */
  ghost predicate Filed(hot: seq<bool>, rem: seq<nat>, buckets: seq<seq<nat>>, cursor: int) {
    && |rem| == |hot| && |buckets| == TOP && -1 <= cursor < TOP
    && (forall u :: 0 <= u < |rem| ==> rem[u] <= 32)
    && (forall k, i :: 0 <= k < TOP && 0 <= i < |buckets[k]| ==> buckets[k][i] < |hot| && (hot[buckets[k][i]] <==> k >= 33))
    && (forall k :: cursor < k < TOP ==> buckets[k] == [])
  }

  /** Every node but `x` with a positive count has an entry where it belongs. */
  ghost predicate Live(hot: seq<bool>, rem: seq<nat>, buckets: seq<seq<nat>>, x: Option<nat>) {
    && |rem| == |hot| && |buckets| == TOP && (forall u :: 0 <= u < |rem| ==> rem[u] <= 32)
    && forall u: nat :: u < |rem| && rem[u] > 0 && x != Some(u) ==> u in buckets[KeyAt(hot, rem, u)]
  }

  lemma PopKeeps(hot: seq<bool>, rem: seq<nat>, b: seq<seq<nat>>, k: nat, cursor: int, u: nat)
    requires Filed(hot, rem, b, cursor) && Live(hot, rem, b, None) && k < TOP && b[k] != [] && u == b[k][|b[k]| - 1]
    ensures var b' := b[k := b[k][..|b[k]| - 1]];
      && u < |hot| && Filed(hot, rem, b', cursor) && Total(b') + 1 == Total(b)
      && (if KeyAt(hot, rem, u) == k then Live(hot, rem, b', Some(u)) else Live(hot, rem, b', None))
  {
    var s := b[k][..|b[k]| - 1];
    var b' := b[k := s];
    assert b[k] == s + [u];
    TotalUpdate(b, k, s);
    forall w: nat | w < |rem| && rem[w] > 0 && (KeyAt(hot, rem, u) == k ==> w != u) ensures w in b'[KeyAt(hot, rem, w)] {
      assert w in b[KeyAt(hot, rem, w)];
    }
  }

  /** One count goes down and the node is filed anew. */
  lemma DownKeeps(hot: seq<bool>, rem: seq<nat>, b: seq<seq<nat>>, cursor: int, w: nat, x: Option<nat>)
    requires Filed(hot, rem, b, cursor) && Live(hot, rem, b, x) && w < |rem| && rem[w] > 0
    ensures var rem' := rem[w := rem[w] - 1];
      var k := Key(hot[w], rem[w] - 1);
      && k < TOP
      && Filed(hot, rem', b[k := b[k] + [w]], if k > cursor then k else cursor)
      && Live(hot, rem', b[k := b[k] + [w]], if x == Some(w) then None else x)
  {
    var rem' := rem[w := rem[w] - 1];
    var k := Key(hot[w], rem[w] - 1);
    var b' := b[k := b[k] + [w]];
    forall u: nat | u < |rem| && rem'[u] > 0 && (u == w || x != Some(u)) ensures u in b'[KeyAt(hot, rem', u)] {
      if u == w { assert b'[k][|b[k]|] == w; } else { assert u in b[KeyAt(hot, rem, u)]; }
    }
  }

  class BucketQueue {
    const n: nat
    const hot: seq<bool>
    const rem: array<nat>
    const buckets: array<seq<nat>>
    var curH: int
    var curR: int

    ghost predicate Sized()
      reads this
    {
      && |hot| == n == rem.Length && buckets.Length == TOP && rem as object != buckets as object
      && -1 <= curH <= 1 && -1 <= curR <= 32 && (curH == -1 ==> curR == 32)
    }

    ghost function Cursor(): int
      reads this
    {
      33 * curH + curR
    }

    ghost predicate Valid(x: Option<nat>)
      reads this, rem, buckets
    {
      Sized() && Filed(hot, rem[..], buckets[..], Cursor()) && Live(hot, rem[..], buckets[..], x)
    }

    constructor (hotFlags: seq<bool>, counts: seq<nat>)
      requires |hotFlags| == |counts| && forall u :: 0 <= u < |counts| ==> counts[u] <= 32
      ensures Valid(None) && fresh(rem) && fresh(buckets)
      ensures n == |counts| && hot == hotFlags && rem[..] == counts
      ensures forall k :: 0 <= k < TOP ==> InIdOrder(buckets[k])
    {
      n := |counts|;
      hot := hotFlags;
      rem := new nat[|counts|](i requires 0 <= i < |counts| => counts[i]);
      buckets := new seq<nat>[TOP](_ => []);
      curH, curR := 1, 32;
      new;
      assert rem[..] == counts;
      for u := 0 to n
        invariant Sized() && curH == 1 && curR == 32 && fresh(rem) && fresh(buckets) && rem[..] == counts && hot == hotFlags && n == |counts|
        invariant Filed(hot, counts, buckets[..], 65)
        invariant forall w: nat :: w < u && counts[w] > 0 ==> w in buckets[..][KeyAt(hot, counts, w)]
        invariant forall k :: 0 <= k < TOP ==> InIdOrder(buckets[k]) && Below(buckets[k], u)
      {
        var k := Key(hot[u], rem[u]);
        ghost var was := buckets[..];
        buckets[k] := buckets[k] + [u];
        assert buckets[..] == was[k := was[k] + [u]];
        FileOne(hot, counts, was, u);
      }
    }

    /** Move the cursor down to the first bucket that is not empty. */
    method Seek()
      requires Sized() && Filed(hot, rem[..], buckets[..], Cursor())
      modifies this`curH, this`curR
      ensures Sized() && Filed(hot, rem[..], buckets[..], Cursor())
      ensures if curH < 0 then forall k :: 0 <= k < TOP ==> buckets[k] == [] else curR >= 0 && buckets[Cursor()] != []
    {
      while curH >= 0
        invariant Sized() && Filed(hot, rem[..], buckets[..], Cursor())
        decreases curH
      {
        ghost var h := curH;
        while curR >= 0 && buckets[33 * curH + curR] == []
          invariant Sized() && curH == h && Filed(hot, rem[..], buckets[..], Cursor())
          decreases curR
        {
          assert buckets[..][Cursor()] == [];
          curR := curR - 1;
        }
        if curR >= 0 { break; }
        curH := curH - 1;
        curR := 32;
      }
      assert forall k :: 0 <= k < TOP ==> buckets[..][k] == buckets[k];
    }

    /**
     `pop_best`: drop stale entries until one matches its node's count.  A hot
     node with a positive count comes before a cold one, and on each side the
     largest count first; of equals, the one filed last.
     */
    method PopBest() returns (r: Option<nat>)
      requires Valid(None)
      modifies this`curH, this`curR, buckets
      ensures r.None? ==> Valid(None) && forall u :: 0 <= u < n ==> rem[u] == 0
      ensures r.Some? ==> r.value < n && Valid(r) && Total(buckets[..]) < old(Total(buckets[..]))
      ensures r.Some? ==> forall w: nat :: w < n && rem[w] > 0 ==> (hot[w] ==> hot[r.value]) && (hot[w] == hot[r.value] ==> rem[w] <= rem[r.value])
      ensures r.Some? ==> LastFiled(hot, rem[..], old(buckets[..]), buckets[..], r.value)
    {
      hide Filed, Live, Total, Trimmed, Stale;
      TrimmedSelf(hot, rem[..], buckets[..]);
      while true
        invariant Valid(None) && Total(buckets[..]) <= old(Total(buckets[..]))
        invariant Trimmed(hot, rem[..], old(buckets[..]), buckets[..])
        decreases Total(buckets[..])
      {
        Seek();
        ghost var b := buckets[..];
        if curH < 0 {
          NoneLive(hot, rem[..], b);
          return None;
        }
        var k: nat := 33 * curH + curR;
        var u := buckets[k][|buckets[k]| - 1];
        PopKeeps(hot, rem[..], b, k, Cursor(), u);
        buckets[k] := buckets[k][..|buckets[k]| - 1];
        assert buckets[..] == b[k := b[k][..|b[k]| - 1]];
        if hot[u] == (curH == 1) && rem[u] == curR {
          TopKey(hot, rem[..], b, k);
          KeyOrder(hot, rem[..], u);
          LastOne(hot, rem[..], old(buckets[..]), b, k);
          return Some(u);
        }
        StaleEntry(hot, rem[..], b, u, curH == 1, curR);
        TrimOne(hot, rem[..], old(buckets[..]), b, k);
      }
    }

    /** `rem[w]--` and the new entry, with the cursor moved up to it if it lies above. */
    method Down(w: nat, ghost x: Option<nat>)
      requires Valid(x) && w < n
      modifies this`curH, this`curR, rem, buckets
      ensures Valid(if old(rem[w]) > 0 && x == Some(w) then None else x)
      ensures rem[..] == Drop(old(rem[..]), [w])
      ensures buckets[..] == if old(rem[w]) > 0 then FiledLast(hot, rem[..], old(buckets[..]), w) else old(buckets[..])
    {
      assert [w][..0] == [];
      if rem[w] == 0 { return; }
      ghost var b, r := buckets[..], rem[..];
      DownKeeps(hot, r, b, Cursor(), w, x);
      rem[w] := rem[w] - 1;
      var h := if hot[w] then 1 else 0;
      var k := Key(hot[w], rem[w]);
      buckets[k] := buckets[k] + [w];
      assert rem[..] == r[w := r[w] - 1] && buckets[..] == b[k := b[k] + [w]];
      if h > curH || (h == curH && rem[w] > curR) {
        curH, curR := h, rem[w];
      }
    }
  }

  lemma FileOne(hot: seq<bool>, rem: seq<nat>, b: seq<seq<nat>>, u: nat)
    requires Filed(hot, rem, b, 65) && u < |rem|
    ensures Key(hot[u], rem[u]) < TOP
    ensures var k := Key(hot[u], rem[u]);
      var b' := b[k := b[k] + [u]];
      && Filed(hot, rem, b', 65) && u in b'[k]
      && forall w: nat :: w < |rem| && w in b[KeyAt(hot, rem, w)] ==> w in b'[KeyAt(hot, rem, w)]
  {
    var k := Key(hot[u], rem[u]);
    assert (b[k] + [u])[|b[k]|] == u;
  }

  lemma NoneLive(hot: seq<bool>, rem: seq<nat>, b: seq<seq<nat>>)
    requires Live(hot, rem, b, None) && forall k :: 0 <= k < TOP ==> b[k] == []
    ensures forall u :: 0 <= u < |rem| ==> rem[u] == 0
  {
    forall u: nat | u < |rem| ensures rem[u] == 0 {
      if rem[u] > 0 { assert false; }
    }
  }

  /** The order of the keys: hot before cold, then the larger count. */
  lemma KeyOrder(hot: seq<bool>, rem: seq<nat>, u: nat)
    requires u < |hot| == |rem| && forall w: nat :: w < |rem| ==> rem[w] <= 32
    requires forall w: nat :: w < |rem| && rem[w] > 0 ==> KeyAt(hot, rem, w) <= KeyAt(hot, rem, u)
    ensures forall w: nat :: w < |rem| && rem[w] > 0 ==> (hot[w] ==> hot[u]) && (hot[w] == hot[u] ==> rem[w] <= rem[u])
  {
    forall w: nat | w < |rem| && rem[w] > 0 ensures (hot[w] ==> hot[u]) && (hot[w] == hot[u] ==> rem[w] <= rem[u]) {
      assert KeyAt(hot, rem, w) <= KeyAt(hot, rem, u);
    }
  }

  /** The node goes to the end of the bucket for its count. */
  function FiledLast(hot: seq<bool>, rem: seq<nat>, b: seq<seq<nat>>, w: nat): seq<seq<nat>>
    requires w < |hot| == |rem|
  {
    var k := KeyAt(hot, rem, w);
    if k < |b| then b[k := b[k] + [w]] else b
  }

  /** An entry of bucket `k` whose node has moved on. */
  ghost predicate Stale(hot: seq<bool>, rem: seq<nat>, k: nat, u: nat) {
    u < |hot| == |rem| && KeyAt(hot, rem, u) != k
  }

  /** The first `m` entries of bucket `k` are left, and what came after them was stale. */
  ghost predicate Cut(hot: seq<bool>, rem: seq<nat>, s: seq<nat>, k: nat, m: nat) {
    m <= |s| && forall j :: m <= j < |s| ==> Stale(hot, rem, k, s[j])
  }

  /** Nothing but stale entries has gone from the ends of the buckets. */
  ghost predicate Trimmed(hot: seq<bool>, rem: seq<nat>, b: seq<seq<nat>>, c: seq<seq<nat>>) {
    |b| == |c| && forall k :: 0 <= k < |b| ==> c[k] <= b[k] && Cut(hot, rem, b[k], k, |c[k]|)
  }

  /** `u` was the last entry of its bucket that is not stale; it is gone with the stale ones after it. */
  ghost predicate LastFiled(hot: seq<bool>, rem: seq<nat>, b: seq<seq<nat>>, c: seq<seq<nat>>, u: nat) {
    && u < |hot| == |rem| && |b| == |c| && KeyAt(hot, rem, u) < |b|
    && var k := KeyAt(hot, rem, u);
       && c[k] + [u] <= b[k] && Cut(hot, rem, b[k], k, |c[k]| + 1)
       && forall j :: 0 <= j < |b| && j != k ==> c[j] <= b[j] && Cut(hot, rem, b[j], j, |c[j]|)
  }

  lemma TrimmedSelf(hot: seq<bool>, rem: seq<nat>, b: seq<seq<nat>>)
    ensures Trimmed(hot, rem, b, b)
  {}

  /** An entry that does not match its node's side and count is stale. */
  lemma StaleEntry(hot: seq<bool>, rem: seq<nat>, b: seq<seq<nat>>, u: nat, h: bool, r: nat)
    requires Live(hot, rem, b, None) && u < |hot| && r <= 32 && !(hot[u] == h && rem[u] == r)
    ensures Stale(hot, rem, Key(h, r), u)
  {}

  lemma TrimOne(hot: seq<bool>, rem: seq<nat>, b: seq<seq<nat>>, c: seq<seq<nat>>, k: nat)
    requires Trimmed(hot, rem, b, c) && k < |c| && c[k] != [] && Stale(hot, rem, k, c[k][|c[k]| - 1])
    ensures Trimmed(hot, rem, b, c[k := c[k][..|c[k]| - 1]])
  {
    hide Stale;
    assert c[k][|c[k]| - 1] == b[k][|c[k]| - 1];
  }

  lemma LastOne(hot: seq<bool>, rem: seq<nat>, b: seq<seq<nat>>, c: seq<seq<nat>>, k: nat)
    requires Trimmed(hot, rem, b, c) && k < |c| && c[k] != [] && c[k][|c[k]| - 1] < |hot| == |rem|
    requires KeyAt(hot, rem, c[k][|c[k]| - 1]) == k
    ensures LastFiled(hot, rem, b, c[k := c[k][..|c[k]| - 1]], c[k][|c[k]| - 1])
  {
    hide Stale;
    assert c[k][..|c[k]| - 1] + [c[k][|c[k]| - 1]] == c[k];
  }

  lemma TopKey(hot: seq<bool>, rem: seq<nat>, b: seq<seq<nat>>, k: nat)
    requires Filed(hot, rem, b, k) && Live(hot, rem, b, None)
    ensures forall w: nat :: w < |rem| && rem[w] > 0 ==> KeyAt(hot, rem, w) <= k
  {
    forall w: nat | w < |rem| && rem[w] > 0 ensures KeyAt(hot, rem, w) <= k {
      assert w in b[KeyAt(hot, rem, w)];
    }
  }

  // ------------------------------------------------------------ the tables

  /** `inadj`: who points at each node, one mention per edge. */
  method InvertEdges(rows: seq<seq<nat>>) returns (inadj: seq<seq<nat>>)
    ensures Inverted(rows, inadj)
  {
    inadj := seq(|rows|, _ => []);
    assert InvertedBelow(rows, inadj, 0, []);
    for u := 0 to |rows|
      invariant InvertedBelow(rows, inadj, u, [])
    {
      inadj := InvertRow(rows, inadj, u);
    }
  }

  method InvertRow(rows: seq<seq<nat>>, inadj0: seq<seq<nat>>, u: nat) returns (inadj: seq<seq<nat>>)
    requires u < |rows| && InvertedBelow(rows, inadj0, u, [])
    ensures InvertedBelow(rows, inadj, u + 1, [])
  {
    hide InvertedBelow;
    inadj := inadj0;
    assert rows[u][..0] == [];
    InvertedSize(rows, inadj, u, []);
    for k := 0 to |rows[u]|
      invariant InvertedBelow(rows, inadj, u, rows[u][..k]) && |inadj| == |rows|
    {
      assert rows[u][..k + 1] == rows[u][..k] + [rows[u][k]];
      var v := rows[u][k];
      InvertStep(rows, inadj, u, rows[u][..k], v);
      if v < |rows| { inadj := inadj[v := inadj[v] + [u]]; }
    }
    assert rows[u][..|rows[u]|] == rows[u];
    InvertDone(rows, inadj, u);
  }

  lemma InvertedSize(rows: seq<seq<nat>>, inadj: seq<seq<nat>>, u: nat, row: seq<nat>)
    requires InvertedBelow(rows, inadj, u, row)
    ensures |inadj| == |rows|
  {}

  lemma InvertStep(rows: seq<seq<nat>>, inadj: seq<seq<nat>>, u: nat, row: seq<nat>, v: nat)
    requires u < |rows| && InvertedBelow(rows, inadj, u, row) && |inadj| == |rows|
    ensures InvertedBelow(rows, if v < |rows| then inadj[v := inadj[v] + [u]] else inadj, u, row + [v])
  {
    var after := if v < |rows| then inadj[v := inadj[v] + [u]] else inadj;
    forall x: nat, w: nat | x < |rows| && w < |rows|
      ensures multiset(after[x])[w] == EdgesIn(rows, u, row + [v], x, w)
    {
      assert multiset(inadj[x])[w] == EdgesIn(rows, u, row, x, w);
    }
  }

  lemma InvertDone(rows: seq<seq<nat>>, inadj: seq<seq<nat>>, u: nat)
    requires u < |rows| && InvertedBelow(rows, inadj, u, rows[u])
    ensures InvertedBelow(rows, inadj, u + 1, [])
  {}

  /** Rows below `u` and the part `row` of row `u` are in. */
  ghost predicate InvertedBelow(rows: seq<seq<nat>>, inadj: seq<seq<nat>>, u: nat, row: seq<nat>) {
    && |inadj| == |rows|
    && (forall v, i :: 0 <= v < |inadj| && 0 <= i < |inadj[v]| ==> inadj[v][i] < |rows|)
    && forall v: nat, w: nat :: v < |rows| && w < |rows| ==>
         multiset(inadj[v])[w] == EdgesIn(rows, u, row, v, w)
  }

  /** Edges from `w` to `v` among the rows below `u` and the part `row` of row `u`. */
  function EdgesIn(rows: seq<seq<nat>>, u: nat, row: seq<nat>, v: nat, w: nat): nat
    requires w < |rows|
  {
    if w < u then multiset(rows[w])[v] else if w == u then multiset(row)[v] else 0
  }

  /** The free neighbours of one node, as the block loop lists them. */
  method Collect(num: Numberer, row: seq<nat>) returns (ids: seq<nat>)
    requires num.Valid()
    ensures ids == FreeOf(num.n, row, num.Order())
  {
    ids := [];
    for k := 0 to |row|
      invariant ids == FreeOf(num.n, row[..k], num.Order())
    {
      assert row[..k + 1][..k] == row[..k];
      var v := row[k];
      if v >= num.n || num.oldToNew[v] != UNSET { continue; }
      ids := ids + [v];
    }
    assert row[..|row|] == row;
  }

  /** In-range neighbours of every node. */
  method InitialCounts(rows: seq<seq<nat>>) returns (counts: seq<nat>)
    ensures Exact(rows, [], counts)
  {
    counts := [];
    for u := 0 to |rows|
      invariant |counts| == u && forall w :: 0 <= w < u ==> counts[w] == |FreeOf(|rows|, rows[w], [])|
    {
      var r := 0;
      for k := 0 to |rows[u]|
        invariant r == |FreeOf(|rows|, rows[u][..k], [])|
      {
        assert rows[u][..k + 1][..k] == rows[u][..k];
        if rows[u][k] < |rows| { r := r + 1; }
      }
      assert rows[u][..|rows[u]|] == rows[u];
      counts := counts + [r];
    }
  }

  // ------------------------------------------------------------ placing a block

  method Place(num: Numberer, ids: seq<nat>)
    requires num.Valid() && Below(ids, num.n)
    modifies num, num.newToOld, num.oldToNew
    ensures num.Valid() && num.Order() == AddAll(old(num.Order()), ids)
  {
    ghost var was := num.Order();
    for i := 0 to |ids|
      invariant num.Valid() && num.Order() == AddAll(was, ids[..i])
    {
      assert ids[..i + 1][..i] == ids[..i];
      var _ := num.Assign(ids[i]);
    }
    assert ids[..|ids|] == ids;
  }

  lemma DropOneMore(rem: seq<nat>, p: seq<nat>, w: nat)
    ensures Drop(Drop(rem, p), [w]) == Drop(rem, p + [w])
  {
    assert (p + [w])[..|p|] == p && [w][..0] == [];
  }

  /** Where the queue stands after the mentions `p`: the popped node is filed again once it is mentioned. */
  ghost predicate Dropped(q: BucketQueue, u: nat, rem0: seq<nat>, p: seq<nat>)
    reads q, q.rem, q.buckets
  {
    && u < |rem0| == q.n && rem0[u] > 0
    && q.Valid(if u in p then None else Some(u)) && q.rem[..] == Drop(rem0, p)
  }

  method DropOne(q: BucketQueue, w: nat, ghost u: nat, ghost rem0: seq<nat>, ghost p: seq<nat>)
    requires Dropped(q, u, rem0, p) && w < q.n
    modifies q`curH, q`curR, q.rem, q.buckets
    ensures Dropped(q, u, rem0, p + [w])
  {
    if w == u && u !in p { DropCounts(rem0, p, u); }
    assert w == u && u !in p ==> q.rem[..][u] > 0;
    DropOneMore(rem0, p, w);
    q.Down(w, if u in p then None else Some(u));
    assert u in p + [w] <==> u in p || u == w;
  }

  method DropList(q: BucketQueue, ws: seq<nat>, ghost u: nat, ghost rem0: seq<nat>, ghost p: seq<nat>)
    requires Dropped(q, u, rem0, p) && Below(ws, q.n)
    modifies q`curH, q`curR, q.rem, q.buckets
    ensures Dropped(q, u, rem0, p + ws)
  {
    hide Dropped;
    assert p + ws[..0] == p;
    for e := 0 to |ws|
      invariant Dropped(q, u, rem0, p + ws[..e])
    {
      assert p + ws[..e + 1] == p + ws[..e] + [ws[e]];
      DropOne(q, ws[e], u, rem0, p + ws[..e]);
    }
    assert ws[..|ws|] == ws;
  }

  /** Every parent of every placed node loses one. */
  method DropBlock(q: BucketQueue, inadj: seq<seq<nat>>, ids: seq<nat>, ghost u: nat, ghost rem0: seq<nat>)
    requires Dropped(q, u, rem0, []) && |inadj| == q.n && Below(ids, q.n)
    requires forall v, i :: 0 <= v < |inadj| && 0 <= i < |inadj[v]| ==> inadj[v][i] < q.n
    modifies q`curH, q`curR, q.rem, q.buckets
    ensures Dropped(q, u, rem0, Parents(inadj, ids))
  {
    hide Dropped;
    for i := 0 to |ids|
      invariant Dropped(q, u, rem0, Parents(inadj, ids[..i]))
    {
      assert ids[..i + 1][..i] == ids[..i];
      DropList(q, inadj[ids[i]], u, rem0, Parents(inadj, ids[..i]));
    }
    assert ids[..|ids|] == ids;
  }

  lemma {:induction false} OwnParent(rows: seq<seq<nat>>, inadj: seq<seq<nat>>, ids: seq<nat>, u: nat, v: nat)
    requires Inverted(rows, inadj) && u < |rows| && v in ids && v in rows[u] && v < |rows|
    ensures u in Parents(inadj, ids)
  {
    var init, x := ids[..|ids| - 1], ids[|ids| - 1];
    assert ids == init + [x];
    if v in init { OwnParent(rows, inadj, init, u, v); }
    else { assert multiset(inadj[v])[u] == multiset(rows[u])[v] > 0; }
  }

  // ------------------------------------------------------------ the whole numbering

  /** Where the loop stands: it has taken top nodes by the counts, and holds the order and the counts that gives. */
  ghost predicate Built(rows: seq<seq<nat>>, hot: seq<bool>, picks: seq<nat>, order: seq<nat>, rem: seq<nat>) {
    Taken(rows, hot, picks) && order == OrderOf(rows, picks) && rem == CountsOf(rows, picks)
  }

  lemma BuiltMore(rows: seq<seq<nat>>, hot: seq<bool>, inadj: seq<seq<nat>>, picks: seq<nat>, order: seq<nat>, rem: seq<nat>, u: nat)
    requires Built(rows, hot, picks, order, rem) && Inverted(rows, inadj) && u < |rows| && Top(hot, rem, u)
    ensures var ids := FreeOf(|rows|, rows[u], order);
      && ids != [] && Below(ids, |rows|) && (forall v :: v in ids ==> v in rows[u])
      && Built(rows, hot, picks + [u], AddAll(order, ids), Drop(rem, Parents(inadj, ids)))
  {
    var ids := FreeOf(|rows|, rows[u], order);
    FreeBelow(rows, u, order);
    TakenMore(rows, hot, picks, u);
    DropIsCounted(rows, inadj, rem, ids);
    assert (picks + [u])[..|picks|] == picks;
    SomeFree(rows, hot, picks, u);
    hide Taken, Inverted, Top, AddAll, Drop, Parents, Counted;
  }

  lemma SomeFree(rows: seq<seq<nat>>, hot: seq<bool>, picks: seq<nat>, u: nat)
    requires Below(picks, |rows|) && u < |rows| && Top(hot, CountsOf(rows, picks), u)
    ensures FreeOf(|rows|, rows[u], OrderOf(rows, picks)) != []
  {
    TakenAtMost(rows, picks);
  }

  lemma TopPopped(hot: seq<bool>, rem: seq<nat>, u: nat)
    requires u < |rem| == |hot| && rem[u] > 0
    requires forall w: nat :: w < |rem| && rem[w] > 0 ==> (hot[w] ==> hot[u]) && (hot[w] == hot[u] ==> rem[w] <= rem[u])
    ensures Top(hot, rem, u)
  {}

  /** The popped node of the queue is a top one by the counts. */
  ghost predicate Popped(q: BucketQueue, u: nat)
    reads q, q.rem, q.buckets
  {
    q.Valid(Some(u)) && Top(q.hot, q.rem[..], u)
  }

  /** The block of a top node: it is not empty, and placing and dropping it is the run's next step. */
  method Block(rows: seq<seq<nat>>, inadj: seq<seq<nat>>, num: Numberer, u: nat, ghost hot: seq<bool>, ghost picks: seq<nat>, ghost rem: seq<nat>)
    returns (ids: seq<nat>)
    requires num.Valid() && num.n == |rows| && Inverted(rows, inadj) && u < |rows|
    requires Built(rows, hot, picks, num.Order(), rem) && Top(hot, rem, u)
    ensures ids != [] && Below(ids, |rows|) && forall v :: v in ids ==> v in rows[u]
    ensures Built(rows, hot, picks + [u], AddAll(num.Order(), ids), Drop(rem, Parents(inadj, ids)))
  {
    BuiltMore(rows, hot, inadj, picks, num.Order(), rem, u);
    hide *;
    ids := Collect(num, rows[u]);
  }

  /** The block of an accepted pop, placed and dropped from the counts. */
  method TakeBlock(rows: seq<seq<nat>>, inadj: seq<seq<nat>>, num: Numberer, q: BucketQueue, u: nat, ghost picks: seq<nat>)
    requires num.Valid() && num.n == |rows| == q.n && Popped(q, u) && Inverted(rows, inadj) && u < |rows|
    requires Built(rows, q.hot, picks, num.Order(), q.rem[..])
    requires q.rem != num.newToOld && q.rem != num.oldToNew
    modifies num, num.newToOld, num.oldToNew, q`curH, q`curR, q.rem, q.buckets
    ensures num.Valid() && q.Valid(None) && Sum(q.rem[..]) < old(Sum(q.rem[..]))
    ensures Built(rows, q.hot, picks + [u], num.Order(), q.rem[..])
  {
    ghost var order, rem0 := num.Order(), q.rem[..];
    hide *;
    PoppedCount(q, u);
    var ids := Block(rows, inadj, num, u, q.hot, picks, rem0);
    // The source clears the count and goes on when the block is empty, which is never.
    if ids == [] { assert false; }
    Place(num, ids);
    DropAll(rows, inadj, q, ids, u, rem0);
  }

  lemma PoppedCount(q: BucketQueue, u: nat)
    requires Popped(q, u)
    ensures q.Valid(Some(u)) && u < q.n == q.rem.Length && q.rem[..][u] > 0 && Top(q.hot, q.rem[..], u)
  {}

  method DropAll(rows: seq<seq<nat>>, inadj: seq<seq<nat>>, q: BucketQueue, ids: seq<nat>, u: nat, ghost rem0: seq<nat>)
    requires q.Valid(Some(u)) && u < q.n == |rows| && q.rem[..] == rem0 && rem0[u] > 0 && Inverted(rows, inadj)
    requires ids != [] && Below(ids, q.n) && forall v :: v in ids ==> v in rows[u]
    modifies q`curH, q`curR, q.rem, q.buckets
    ensures q.Valid(None) && q.rem[..] == Drop(rem0, Parents(inadj, ids)) && Sum(q.rem[..]) < Sum(rem0)
  {
    hide Filed, Live, Parents, Drop;
    assert ids[0] in ids;
    OwnParent(rows, inadj, ids, u, ids[0]);
    DropSum(rem0, Parents(inadj, ids));
    assert Drop(rem0, []) == rem0 by { EmptyDrop(rem0); }
    DropBlock(q, inadj, ids, u, rem0);
  }

  lemma EmptyDrop(rem: seq<nat>)
    ensures Drop(rem, []) == rem
  {}

  lemma FullOrder(order: seq<nat>, n: nat)
    requires Distinct(order) && Below(order, n) && |order| == n
    ensures forall v: nat :: v < n ==> v in order
  {
    forall v: nat | v < n ensures v in order {
      var i := PermutationOnto(order, v);
    }
  }

  /** What the finished loop has done, whatever the rows repeat. */
  ghost predicate Blocked(rows: seq<seq<nat>>, hot: seq<bool>, picks: seq<nat>, order: seq<nat>) {
    Taken(rows, hot, picks) && Over(rows, picks) && order == OrderOf(rows, picks)
  }

  lemma QueueOut(rows: seq<seq<nat>>, hot: seq<bool>, picks: seq<nat>, order: seq<nat>, rem: seq<nat>)
    requires Built(rows, hot, picks, order, rem)
    requires (forall u :: 0 <= u < |rem| ==> rem[u] == 0) || (Distinct(order) && Below(order, |rows|) && |order| == |rows|)
    ensures Blocked(rows, hot, picks, order)
  {
    if |order| == |rows| && Distinct(order) && Below(order, |rows|) { FullOrder(order, |rows|); }
  }

  lemma BuiltStart(rows: seq<seq<nat>>, hot: seq<bool>, rem: seq<nat>)
    requires Exact(rows, [], rem)
    ensures Built(rows, hot, [], [], rem)
  {}

  method Blocks(rows: seq<seq<nat>>, hot: seq<bool>, inadj: seq<seq<nat>>, num: Numberer, q: BucketQueue) returns (ghost picks: seq<nat>)
    requires num.Valid() && num.n == |rows| == q.n && num.Order() == [] && q.Valid(None) && q.hot == hot
    requires Inverted(rows, inadj) && Exact(rows, [], q.rem[..])
    requires q.rem != num.newToOld && q.rem != num.oldToNew
    modifies num, num.newToOld, num.oldToNew, q`curH, q`curR, q.rem, q.buckets
    ensures num.Valid()
    ensures Blocked(rows, hot, picks, num.Order())
    ensures AllExact(rows, picks) ==> Greedy(rows, hot, picks)
  {
    hide *;
    picks := [];
    BuiltStart(rows, hot, q.rem[..]);
    NumbererSized(num);
    QueueSized(q, None);
    while num.given < num.n
      invariant num.Valid() && num.Sized() && q.Valid(None) && q.rem.Length == q.n == |hot|
      invariant Built(rows, hot, picks, num.Order(), q.rem[..])
      decreases Sum(q.rem[..]), Total(q.buckets[..])
    {
      var u := q.PopBest();
      if u.None? { break; }
      if q.rem[u.value] == 0 {
        PopDone(q, u.value);
        continue;
      }
      PoppedTop(q, u.value);
      TakeBlock(rows, inadj, num, q, u.value, picks);
      picks := picks + [u.value];
      NumbererSized(num);
      QueueSized(q, None);
    }
    if num.given >= num.n { AllGiven(num); }
    QueueOut(rows, hot, picks, num.Order(), q.rem[..]);
    if AllExact(rows, picks) { BlockedGreedy(rows, hot, picks, num.Order()); }
  }

  lemma BlockedGreedy(rows: seq<seq<nat>>, hot: seq<bool>, picks: seq<nat>, order: seq<nat>)
    requires Blocked(rows, hot, picks, order) && AllExact(rows, picks)
    ensures Greedy(rows, hot, picks)
  {
    GreedyWhenExact(rows, hot, picks);
  }

  lemma NumbererSized(num: Numberer)
    requires num.Valid()
    ensures num.Sized()
  {}

  lemma QueueSized(q: BucketQueue, x: Option<nat>)
    requires q.Valid(x)
    ensures q.rem.Length == q.n == |q.hot|
  {}

  lemma PoppedTop(q: BucketQueue, u: nat)
    requires q.Valid(Some(u)) && u < q.n == q.rem.Length == |q.hot| && q.rem[u] > 0
    requires forall w: nat :: w < q.n && q.rem[w] > 0 ==> (q.hot[w] ==> q.hot[u]) && (q.hot[w] == q.hot[u] ==> q.rem[w] <= q.rem[u])
    ensures Popped(q, u)
  {
    TopPopped(q.hot, q.rem[..], u);
  }

  lemma AllGiven(num: Numberer)
    requires num.Valid() && num.given >= num.n
    ensures Distinct(num.Order()) && Below(num.Order(), num.n) && |num.Order()| == num.n
  {}

  lemma PopDone(q: BucketQueue, u: nat)
    requires q.Valid(Some(u)) && u < q.n && q.rem[u] == 0
    ensures q.Valid(None)
  {}

  /**
   Any hot set and any rows with at most 32 in-range neighbours each give a
   renumbering: the blocks of top nodes by the counts, each numbered in a row,
   until no count is left, and then the rest in id order.  When every row that
   names a node twice holds all neighbours of every row naming that node, as
   when no row does, the counts are right and the numbering is the greedy one:
   no node beats the one whose block is placed, and none keeps a free neighbour.
   */
  method Pack(rows: seq<seq<nat>>, hot: seq<bool>) returns (num: Numberer, ghost picks: seq<nat>)
    requires |hot| == |rows| <= UNSET && SmallRows(rows)
    ensures fresh(num) && fresh(num.newToOld) && fresh(num.oldToNew)
    ensures Renumbering(num.newToOld[..], num.oldToNew[..]) && num.newToOld.Length == |rows|
    ensures Taken(rows, hot, picks) && Over(rows, picks) && num.newToOld[..] == Rest(OrderOf(rows, picks), 0, |rows|)
    ensures AllExact(rows, picks) || SelfContained(rows) || CleanRows(rows) ==> Greedy(rows, hot, picks)
  {
    num := new Numberer(|rows|);
    var inadj := InvertEdges(rows);
    var counts := InitialCounts(rows);
    var q := new BucketQueue(hot, counts);
    hide Inverted, Filed, Live, CleanRows, SelfContained, Greedy, Exact, OrderOf, AllExact, Taken, Over;
    picks := Blocks(rows, hot, inadj, num, q);
    PackedRight(rows, hot, picks, num.Order());
    num.AssignRest();
  }

  lemma PackedRight(rows: seq<seq<nat>>, hot: seq<bool>, picks: seq<nat>, order: seq<nat>)
    requires Blocked(rows, hot, picks, order)
    ensures Taken(rows, hot, picks) && Below(picks, |rows|) && Over(rows, picks) && order == OrderOf(rows, picks)
    ensures SelfContained(rows) || CleanRows(rows) ==> AllExact(rows, picks)
  {
    if CleanRows(rows) { CleanContained(rows); }
    if SelfContained(rows) { ContainedExact(rows, picks); }
  }
}
