/** Breadth-first numbering on values: the order, and what it says about distance and reachability. */
module BfsSpec {
  import opened Common
  import opened Counting
  import opened Numberers
  import opened Relabel

  /** Nodes in the order they are first met, and for each the place of the node it was met from. */
  datatype Walk = Walk(order: seq<nat>, par: seq<nat>)

  function Add(n: nat, w: Walk, v: nat, h: nat): Walk {
    if v >= n || v in w.order then w else Walk(w.order + [v], w.par + [h])
  }

  /** The neighbours in `row` of the node at place `h`. */
  function AddRow(n: nat, w: Walk, row: seq<nat>, h: nat): Walk {
    if row == [] then w else Add(n, AddRow(n, w, row[..|row| - 1], h), row[|row| - 1], h)
  }

  ghost predicate Good(n: nat, w: Walk) {
    |w.par| == |w.order| && Distinct(w.order) && Below(w.order, n)
  }

  lemma {:induction false} AddRowGood(n: nat, w: Walk, row: seq<nat>, h: nat)
    requires Good(n, w)
    ensures var r := AddRow(n, w, row, h);
      && Good(n, r) && w.order <= r.order && w.par <= r.par
      && (forall i :: |w.order| <= i < |r.order| ==> r.par[i] == h && r.order[i] in row)
      && (forall v :: v in row && v < n ==> v in r.order)
  {
    if row != [] {
      var init := row[..|row| - 1];
      AddRowGood(n, w, init, h);
      assert row == init + [row[|row| - 1]];
    }
  }

  /** Take nodes from place `head` on and add their neighbours. */
  ghost function Bfs(rows: seq<seq<nat>>, w: Walk, head: nat): Walk
    requires Good(|rows|, w) && head <= |w.order|
    decreases |rows| - head
  {
    if head == |w.order| then w
    else
      DistinctBound(w.order, |rows|);
      AddRowGood(|rows|, w, rows[w.order[head]], head);
      Bfs(rows, AddRow(|rows|, w, rows[w.order[head]], head), head + 1)
  }

  ghost function BfsFrom(rows: seq<seq<nat>>, e: nat): Walk
    requires e < |rows|
  {
    Bfs(rows, Walk([e], [0]), 0)
  }

  // ------------------------------------------------------------ reachability and distance

  /** `v` is at most `d` edges from `e`. */
  ghost predicate Within(rows: seq<seq<nat>>, e: nat, v: nat, d: nat)
    decreases d
  {
    if d == 0 then v == e
    else Within(rows, e, v, d - 1) || exists u: nat :: Edge(rows, u, v) && Within(rows, e, u, d - 1)
  }

  ghost predicate Edge(rows: seq<seq<nat>>, u: nat, v: nat) {
    u < |rows| && v < |rows| && v in rows[u]
  }

  /** What holds once the first `head` nodes are done. */
  ghost predicate Half(rows: seq<seq<nat>>, e: nat, w: Walk, head: nat) {
    && Good(|rows|, w) && head <= |w.order| && w.order != [] && w.order[0] == e
    && (forall i, v: nat :: 0 <= i < head && Edge(rows, w.order[i], v) ==> v in w.order)
    && (forall i :: 0 < i < |w.order| ==> w.par[i] < i && w.par[i] < head && Edge(rows, w.order[w.par[i]], w.order[i]))
    && (forall i, j :: 0 < i < j < |w.order| ==> w.par[i] <= w.par[j])
    && (forall i, k: nat :: 0 < i < |w.order| && k < w.par[i] ==> !Edge(rows, w.order[k], w.order[i]))
  }

  lemma HalfStep(rows: seq<seq<nat>>, e: nat, w: Walk, head: nat)
    requires Half(rows, e, w, head) && head < |w.order|
    ensures Half(rows, e, AddRow(|rows|, w, rows[w.order[head]], head), head + 1)
  {
    var row := rows[w.order[head]];
    AddRowGood(|rows|, w, row, head);
    var r := AddRow(|rows|, w, row, head);
    forall i | 0 < i < |r.order| ensures r.par[i] < i && r.par[i] < head + 1 && Edge(rows, r.order[r.par[i]], r.order[i]) {
      if i < |w.order| { assert r.order[i] == w.order[i] && r.par[i] == w.par[i]; }
    }
    forall i, k: nat | 0 < i < |r.order| && k < r.par[i] ensures !Edge(rows, r.order[k], r.order[i]) {
      if i < |w.order| {
        assert r.order[i] == w.order[i] && r.par[i] == w.par[i] && r.order[k] == w.order[k];
      } else {
        NewAtEnd(w.order, r.order, i);
        assert r.order[k] == w.order[k];
      }
    }
    forall i, v: nat | 0 <= i < head + 1 && Edge(rows, r.order[i], v) ensures v in r.order {
      assert r.order[i] == w.order[i];
      if i < head {
        assert v in w.order;
        var j :| 0 <= j < |w.order| && w.order[j] == v;
        assert r.order[j] == v;
      }
    }
  }

  lemma NewAtEnd(a: seq<nat>, b: seq<nat>, i: nat)
    requires a <= b && Distinct(b) && |a| <= i < |b|
    ensures b[i] !in a
  {
    forall j | 0 <= j < |a| ensures a[j] != b[i] { assert a[j] == b[j]; }
  }

  lemma {:induction false} BfsHalf(rows: seq<seq<nat>>, e: nat, w: Walk, head: nat)
    requires Half(rows, e, w, head)
    ensures var r := Bfs(rows, w, head); Half(rows, e, r, |r.order|) && w.order <= r.order
    decreases |rows| - head
  {
    if head < |w.order| {
      DistinctBound(w.order, |rows|);
      AddRowGood(|rows|, w, rows[w.order[head]], head);
      HalfStep(rows, e, w, head);
      hide Half;
      BfsHalf(rows, e, AddRow(|rows|, w, rows[w.order[head]], head), head + 1);
    }
  }

  lemma BfsDone(rows: seq<seq<nat>>, e: nat)
    requires e < |rows|
    ensures var r := BfsFrom(rows, e); Half(rows, e, r, |r.order|)
  {
    BfsHalf(rows, e, Walk([e], [0]), 0);
  }

  /** Only reachable nodes are met. */
  lemma {:induction false} MetReachable(rows: seq<seq<nat>>, e: nat, w: Walk, i: nat)
    requires Half(rows, e, w, |w.order|) && i < |w.order|
    ensures Reachable(rows, e, w.order[i])
  {
    if i == 0 {
      assert Within(rows, e, e, 0);
    } else {
      MetReachable(rows, e, w, w.par[i]);
      var d: nat :| Within(rows, e, w.order[w.par[i]], d);
      assert Edge(rows, w.order[w.par[i]], w.order[i]);
      assert Within(rows, e, w.order[i], d + 1);
    }
  }

  /** Every reachable node is met. */
  lemma {:induction false} ReachableMet(rows: seq<seq<nat>>, e: nat, w: Walk, v: nat, d: nat)
    requires Half(rows, e, w, |w.order|) && Within(rows, e, v, d)
    ensures v in w.order
    decreases d
  {
    hide Half, Edge;
    if d == 0 {
      StartMet(rows, e, w);
    } else if Within(rows, e, v, d - 1) {
      ReachableMet(rows, e, w, v, d - 1);
    } else {
      var u: nat :| Edge(rows, u, v) && Within(rows, e, u, d - 1);
      ReachableMet(rows, e, w, u, d - 1);
      NextMet(rows, e, w, u, v);
    }
  }

  lemma StartMet(rows: seq<seq<nat>>, e: nat, w: Walk)
    requires Half(rows, e, w, |w.order|)
    ensures e in w.order
  {
    assert w.order[0] == e;
  }

  lemma NextMet(rows: seq<seq<nat>>, e: nat, w: Walk, u: nat, v: nat)
    requires Half(rows, e, w, |w.order|) && u in w.order && Edge(rows, u, v)
    ensures v in w.order
  {}

  ghost predicate Reachable(rows: seq<seq<nat>>, e: nat, v: nat) {
    exists d: nat :: Within(rows, e, v, d)
  }

  /** The row of every node reachable from `e` names nodes only. */
  ghost predicate NoStrays(rows: seq<seq<nat>>, e: nat) {
    forall u: nat :: u < |rows| && Reachable(rows, e, u) ==> NodesOnly(rows, u)
  }

  ghost predicate NodesOnly(rows: seq<seq<nat>>, u: nat)
    requires u < |rows|
  {
    forall k :: 0 <= k < |rows[u]| ==> rows[u][k] < |rows|
  }

  ghost function ReachSet(rows: seq<seq<nat>>, e: nat): (r: set<nat>)
    ensures forall v: nat :: v in r <==> v < |rows| && Reachable(rows, e, v)
  {
    set v: nat | v < |rows| && Reachable(rows, e, v)
  }

  lemma ReachStep(rows: seq<seq<nat>>, e: nat, u: nat, v: nat)
    requires Reachable(rows, e, u) && Edge(rows, u, v)
    ensures Reachable(rows, e, v)
  {
    var d: nat :| Within(rows, e, u, d);
    assert Within(rows, e, v, d + 1);
  }

  lemma ReachEnclosed(rows: seq<seq<nat>>, e: nat)
    requires e < |rows| && NoStrays(rows, e)
    ensures e in ReachSet(rows, e) && Enclosed(rows, ReachSet(rows, e))
  {
    assert Within(rows, e, e, 0);
    forall u, k | u in ReachSet(rows, e) && 0 <= k < |rows[u]| ensures rows[u][k] < |rows| && rows[u][k] in ReachSet(rows, e) {
      assert NodesOnly(rows, u) && Edge(rows, u, rows[u][k]);
      ReachStep(rows, e, u, rows[u][k]);
    }
  }

  lemma MetIff(rows: seq<seq<nat>>, e: nat, w: Walk, v: nat)
    requires Half(rows, e, w, |w.order|)
    ensures v in w.order <==> Reachable(rows, e, v)
  {
    if v in w.order {
      var i: nat :| i < |w.order| && w.order[i] == v;
      MetReachable(rows, e, w, i);
    }
    if Reachable(rows, e, v) {
      var d: nat :| Within(rows, e, v, d);
      ReachableMet(rows, e, w, v, d);
    }
  }

  /** Earlier means no farther. */
  lemma {:induction false} Nondecreasing(rows: seq<seq<nat>>, e: nat, w: Walk, i: nat, j: nat, d: nat)
    requires Half(rows, e, w, |w.order|) && i < j < |w.order| && Within(rows, e, w.order[j], d)
    ensures Within(rows, e, w.order[i], d)
    decreases d
  {
    hide *;
    HalfAt(rows, e, w, i);
    if i == 0 {
      StartWithin(rows, e, d);
    } else if d == 0 {
      NotStart(rows, e, w, j);
    } else if Within(rows, e, w.order[j], d - 1) {
      Nondecreasing(rows, e, w, i, j, d - 1);
      WithinMore(rows, e, w.order[i], d - 1);
    } else {
      var k := ReachedFrom(rows, e, w, i, j, d);
      if w.par[i] < k { Nondecreasing(rows, e, w, w.par[i], k, d - 1); }
      WithinNext(rows, e, w.order[w.par[i]], w.order[i], d - 1);
    }
  }

  lemma HalfAt(rows: seq<seq<nat>>, e: nat, w: Walk, i: nat)
    requires Half(rows, e, w, |w.order|) && i < |w.order|
    ensures |w.par| == |w.order| && w.order[0] == e && (i > 0 ==> w.par[i] < i && Edge(rows, w.order[w.par[i]], w.order[i]))
  {}

  lemma WithinMore(rows: seq<seq<nat>>, e: nat, v: nat, d: nat)
    requires Within(rows, e, v, d)
    ensures Within(rows, e, v, d + 1)
  {}

  lemma WithinNext(rows: seq<seq<nat>>, e: nat, u: nat, v: nat, d: nat)
    requires Within(rows, e, u, d) && Edge(rows, u, v)
    ensures Within(rows, e, v, d + 1)
  {}

  lemma NotStart(rows: seq<seq<nat>>, e: nat, w: Walk, j: nat)
    requires Half(rows, e, w, |w.order|) && 0 < j < |w.order|
    ensures w.order[j] != e && !Within(rows, e, w.order[j], 0)
  {}

  /** The node one step closer is no earlier than the parent of anything earlier. */
  lemma ReachedFrom(rows: seq<seq<nat>>, e: nat, w: Walk, i: nat, j: nat, d: nat) returns (k: nat)
    requires Half(rows, e, w, |w.order|) && 0 < i < j < |w.order| && d > 0
    requires Within(rows, e, w.order[j], d) && !Within(rows, e, w.order[j], d - 1)
    ensures w.par[i] <= k < |w.order| && Within(rows, e, w.order[k], d - 1)
  {
    var u: nat :| Edge(rows, u, w.order[j]) && Within(rows, e, u, d - 1);
    ReachableMet(rows, e, w, u, d - 1);
    k :| k < |w.order| && w.order[k] == u;
    ParentFirst(rows, e, w, i, j, k);
    hide Half;
  }

  lemma ParentFirst(rows: seq<seq<nat>>, e: nat, w: Walk, i: nat, j: nat, k: nat)
    requires Half(rows, e, w, |w.order|) && 0 < i < j < |w.order| && k < |w.order| && Edge(rows, w.order[k], w.order[j])
    ensures |w.par| == |w.order| && w.par[i] <= k
  {
    assert w.par[i] <= w.par[j];
  }

  lemma {:induction false} StartWithin(rows: seq<seq<nat>>, e: nat, d: nat)
    ensures Within(rows, e, e, d)
  {
    if d > 0 { StartWithin(rows, e, d - 1); }
  }

  /**
   The numbering starts with exactly the nodes reachable from the entry, the
   entry first, in nondecreasing distance.
   */
  lemma BfsIsByDistance(rows: seq<seq<nat>>, e: nat)
    requires e < |rows|
    ensures var o := BfsFrom(rows, e).order;
      && o != [] && o[0] == e && Distinct(o) && Below(o, |rows|)
      && (forall v: nat :: v in o <==> Reachable(rows, e, v))
      && (forall i: nat, j: nat, d: nat :: i < j < |o| && Within(rows, e, o[j], d) ==> Within(rows, e, o[i], d))
  {
    BfsDone(rows, e);
    var w := BfsFrom(rows, e);
    forall v: nat ensures v in w.order <==> Reachable(rows, e, v) { MetIff(rows, e, w, v); }
    forall i: nat, j: nat, d: nat | i < j < |w.order| && Within(rows, e, w.order[j], d) ensures Within(rows, e, w.order[i], d) {
      Nondecreasing(rows, e, w, i, j, d);
    }
  }

  // ------------------------------------------------------------ the order among equals

  /** The row names `a` before it names `b`, if it names `b` at all. */
  ghost predicate ListedFirst(row: seq<nat>, a: nat, b: nat) {
    exists p: nat :: p < |row| && row[p] == a && b !in row[..p + 1]
  }

  /** An earlier node names `o[i]`, and up to that place nobody has named `o[j]`. */
  ghost predicate NamedFirst(rows: seq<seq<nat>>, o: seq<nat>, i: nat, j: nat)
    requires i < |o| && j < |o|
  {
    exists k: nat :: k < i && NamedAt(rows, o, i, j, k)
  }

  ghost predicate NamedAt(rows: seq<seq<nat>>, o: seq<nat>, i: nat, j: nat, k: nat)
    requires i < |o| && j < |o| && k < |o|
  {
    && o[k] < |rows| && ListedFirst(rows[o[k]], o[i], o[j])
    && forall h: nat :: h < k ==> !Edge(rows, o[h], o[j])
  }

  /** Nodes met from one node stand in the order of its row. */
  ghost predicate RowWise(rows: seq<seq<nat>>, w: Walk) {
    && |w.par| == |w.order| && Below(w.order, |rows|)
    && forall i, j :: 0 < i < j < |w.order| && w.par[i] == w.par[j] ==> FromOne(rows, w, i, j)
  }

  ghost predicate FromOne(rows: seq<seq<nat>>, w: Walk, i: nat, j: nat)
    requires i < |w.order| == |w.par| && j < |w.order| && Below(w.order, |rows|)
  {
    w.par[i] < |w.order| && ListedFirst(rows[w.order[w.par[i]]], w.order[i], w.order[j])
  }

  lemma {:induction false} AddRowInOrder(n: nat, w: Walk, row: seq<nat>, h: nat, i: nat, j: nat)
    requires Good(n, w) && |w.order| <= i < j < |AddRow(n, w, row, h).order|
    ensures ListedFirst(row, AddRow(n, w, row, h).order[i], AddRow(n, w, row, h).order[j])
  {
    if row != [] {
      var last := |row| - 1;
      var init := row[..last];
      AddRowGood(n, w, init, h);
      var r := AddRow(n, w, init, h);
      var a, b := AddRow(n, w, row, h).order[i], AddRow(n, w, row, h).order[j];
      assert i < |r.order| && a == r.order[i] && a in init;
      if j < |r.order| {
        AddRowInOrder(n, w, init, h, i, j);
        var p: nat :| p < |init| && init[p] == a && b !in init[..p + 1];
        assert init[..p + 1] == row[..p + 1] && row[p] == a;
      } else {
        var p: nat :| p < |init| && init[p] == a;
        assert b < n && b !in init;
        assert forall q :: 0 <= q < p + 1 ==> row[q] == init[q];
        assert row[p] == a && b !in row[..p + 1];
      }
    }
  }

  lemma RowWiseStep(rows: seq<seq<nat>>, e: nat, w: Walk, head: nat)
    requires Half(rows, e, w, head) && head < |w.order| && RowWise(rows, w)
    ensures RowWise(rows, AddRow(|rows|, w, rows[w.order[head]], head))
  {
    var row := rows[w.order[head]];
    AddRowGood(|rows|, w, row, head);
    var r := AddRow(|rows|, w, row, head);
    forall i, j | 0 < i < j < |r.order| && r.par[i] == r.par[j] ensures FromOne(rows, r, i, j) {
      assert i < |w.order| ==> r.par[i] == w.par[i];
      if j < |w.order| {
        assert FromOne(rows, w, i, j);
      } else if |w.order| <= i {
        AddRowInOrder(|rows|, w, row, head, i, j);
      }
    }
  }

  lemma {:induction false} BfsRowWise(rows: seq<seq<nat>>, e: nat, w: Walk, head: nat)
    requires Half(rows, e, w, head) && RowWise(rows, w)
    ensures RowWise(rows, Bfs(rows, w, head))
    decreases |rows| - head
  {
    if head < |w.order| {
      DistinctBound(w.order, |rows|);
      AddRowGood(|rows|, w, rows[w.order[head]], head);
      HalfStep(rows, e, w, head);
      RowWiseStep(rows, e, w, head);
      hide Half, RowWise;
      BfsRowWise(rows, e, AddRow(|rows|, w, rows[w.order[head]], head), head + 1);
    }
  }

  /**
   Of two nodes of the walk the earlier one is named first: by an earlier node
   than any that names the other, or before it in the same row.  With
   `BfsIsByDistance` that leaves one order only.
   */
  lemma BfsInRowOrder(rows: seq<seq<nat>>, e: nat, i: nat, j: nat)
    requires e < |rows| && 0 < i < j < |BfsFrom(rows, e).order|
    ensures NamedFirst(rows, BfsFrom(rows, e).order, i, j)
  {
    var w := BfsFrom(rows, e);
    BfsDone(rows, e);
    BfsRowWise(rows, e, Walk([e], [0]), 0);
    var k := w.par[i];
    assert NamedAt(rows, w.order, i, j, k) by {
      if k == w.par[j] {
        assert FromOne(rows, w, i, j);
      } else {
        assert k < w.par[j] && Edge(rows, w.order[k], w.order[i]) && !Edge(rows, w.order[k], w.order[j]);
        var p: nat :| p < |rows[w.order[k]]| && rows[w.order[k]][p] == w.order[i];
        assert w.order[j] !in rows[w.order[k]][..p + 1];
      }
    }
  }

  /** The whole numbering: the walk, then the nodes it did not meet in id order. */
  ghost function Numbering(rows: seq<seq<nat>>, e: nat): (r: seq<nat>)
    requires e < |rows|
    ensures IsPermutation(r) && |r| == |rows| && BfsFrom(rows, e).order <= r && InIdOrder(r[|BfsFrom(rows, e).order|..])
  {
    BfsDone(rows, e);
    RestAll(BfsFrom(rows, e).order, 0, |rows|);
    RestInOrder(BfsFrom(rows, e).order, 0, |rows|);
    Rest(BfsFrom(rows, e).order, 0, |rows|)
  }
}
