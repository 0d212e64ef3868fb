/**
 Neighbours that are not nodes: the tools rewrite them to node 0.  What that
 does to reachability, and so to a search.
 */
module Strays {
  import opened Common
  import opened Counting
  import opened BeamSpec
  import opened BeamProofs
  import opened BfsSpec
  import opened Relabel

  /** The rows reachable from the entry name nodes only, or the node that becomes 0 can be reached as it is. */
  ghost predicate StraysHarmless(rows: seq<seq<nat>>, newToOld: seq<nat>, e: nat) {
    NoStrays(rows, e) || (newToOld != [] && Reachable(rows, e, newToOld[0]))
  }

  /** An edge of the new graph is an edge of the old one, or leads to node 0 from a row with a stray. */
  lemma NewEdge(rows: seq<seq<nat>>, newToOld: seq<nat>, oldToNew: seq<nat>, u: nat, v: nat)
    requires Renumbering(newToOld, oldToNew) && |newToOld| == |rows| && u < |rows| && v < |rows|
    ensures Edge(RemapRows(rows, newToOld, oldToNew), oldToNew[u], oldToNew[v]) <==>
            Edge(rows, u, v) || (oldToNew[v] == 0 && !NodesOnly(rows, u))
  {
    var row := rows[u];
    var r := RemapRow(row, oldToNew);
    assert RemapRows(rows, newToOld, oldToNew)[oldToNew[u]] == r;
    if v in row {
      var k :| 0 <= k < |row| && row[k] == v;
      assert r[k] == oldToNew[v];
    }
    if oldToNew[v] == 0 && !NodesOnly(rows, u) {
      var k :| 0 <= k < |row| && row[k] >= |rows|;
      assert r[k] == 0;
    }
    if oldToNew[v] in r {
      var k :| 0 <= k < |r| && r[k] == oldToNew[v];
      if row[k] < |rows| { assert newToOld[oldToNew[row[k]]] == row[k] && newToOld[oldToNew[v]] == v; }
    }
  }

  /** Renumbering loses no path. */
  lemma {:induction false} PathKept(rows: seq<seq<nat>>, newToOld: seq<nat>, oldToNew: seq<nat>, e: nat, v: nat, d: nat)
    requires Renumbering(newToOld, oldToNew) && |newToOld| == |rows| && e < |rows| && v < |rows| && Within(rows, e, v, d)
    ensures Within(RemapRows(rows, newToOld, oldToNew), oldToNew[e], oldToNew[v], d)
    decreases d
  {
    if d > 0 {
      if Within(rows, e, v, d - 1) {
        PathKept(rows, newToOld, oldToNew, e, v, d - 1);
      } else {
        var u: nat :| Edge(rows, u, v) && Within(rows, e, u, d - 1);
        PathKept(rows, newToOld, oldToNew, e, u, d - 1);
        NewEdge(rows, newToOld, oldToNew, u, v);
      }
    }
  }

  /** With harmless strays it adds none. */
  lemma {:induction false} PathBack(rows: seq<seq<nat>>, newToOld: seq<nat>, oldToNew: seq<nat>, e: nat, v: nat, d: nat)
    requires Renumbering(newToOld, oldToNew) && |newToOld| == |rows| && e < |rows| && v < |rows| && StraysHarmless(rows, newToOld, e)
    requires Within(RemapRows(rows, newToOld, oldToNew), oldToNew[e], oldToNew[v], d)
    ensures Reachable(rows, e, v)
    decreases d
  {
    var rows' := RemapRows(rows, newToOld, oldToNew);
    if d == 0 {
      assert newToOld[oldToNew[e]] == e && newToOld[oldToNew[v]] == v;
      assert Within(rows, e, v, 0);
    } else if Within(rows', oldToNew[e], oldToNew[v], d - 1) {
      PathBack(rows, newToOld, oldToNew, e, v, d - 1);
    } else {
      var i: nat :| Edge(rows', i, oldToNew[v]) && Within(rows', oldToNew[e], i, d - 1);
      var u := newToOld[i];
      assert oldToNew[u] == i;
      PathBack(rows, newToOld, oldToNew, e, u, d - 1);
      NewEdge(rows, newToOld, oldToNew, u, v);
      if Edge(rows, u, v) { ReachStep(rows, e, u, v); } else { assert newToOld[oldToNew[v]] == v; }
    }
  }

  /** `v` can be reached on the new graph exactly when it can on the old one. */
  ghost predicate ReachKept(rows: seq<seq<nat>>, newToOld: seq<nat>, oldToNew: seq<nat>, e: nat, v: nat)
    requires Renumbering(newToOld, oldToNew) && |newToOld| == |rows| && e < |rows| && v < |rows|
  {
    Reachable(RemapRows(rows, newToOld, oldToNew), oldToNew[e], oldToNew[v]) <==> Reachable(rows, e, v)
  }

  /**
   The renumbered graph reaches from the entry exactly the renumbered nodes
   just when no reachable row names a stray, or the node that becomes 0 could
   be reached anyway.
   */
  lemma ReachKeptIff(rows: seq<seq<nat>>, newToOld: seq<nat>, oldToNew: seq<nat>, e: nat)
    requires Renumbering(newToOld, oldToNew) && |newToOld| == |rows| && e < |rows|
    ensures (forall v: nat :: v < |rows| ==> ReachKept(rows, newToOld, oldToNew, e, v)) <==> StraysHarmless(rows, newToOld, e)
  {
    var rows' := RemapRows(rows, newToOld, oldToNew);
    if StraysHarmless(rows, newToOld, e) {
      forall v: nat | v < |rows| ensures ReachKept(rows, newToOld, oldToNew, e, v) {
        if Reachable(rows, e, v) {
          var d: nat :| Within(rows, e, v, d);
          PathKept(rows, newToOld, oldToNew, e, v, d);
        }
        if Reachable(rows', oldToNew[e], oldToNew[v]) {
          var d: nat :| Within(rows', oldToNew[e], oldToNew[v], d);
          PathBack(rows, newToOld, oldToNew, e, v, d);
        }
      }
    } else {
      var u: nat :| u < |rows| && Reachable(rows, e, u) && !NodesOnly(rows, u);
      var v := newToOld[0];
      var d: nat :| Within(rows, e, u, d);
      PathKept(rows, newToOld, oldToNew, e, u, d);
      NewEdge(rows, newToOld, oldToNew, u, v);
      ReachStep(rows', oldToNew[e], oldToNew[u], oldToNew[v]);
      assert !ReachKept(rows, newToOld, oldToNew, e, v);
    }
  }

  // ------------------------------------------------------------ searches

  /** For every width and expansion limit: when no reachable row names a stray, or the entry becomes 0, the two searches agree entry by entry. */
  lemma RelabelledSearch(x: Index, newToOld: seq<nat>, oldToNew: seq<nat>, limit: nat, iters: nat, entry: nat)
    requires limit > 0 && Renumbering(newToOld, oldToNew) && |newToOld| == |x.rows| == |x.pq| && entry < |x.rows|
    requires NoStrays(x.rows, entry) || oldToNew[entry] == 0
    ensures var y := RemapIndex(x, newToOld, oldToNew);
      && Closed(x, Init(x, limit, entry)) && Closed(y, Init(y, limit, oldToNew[entry]))
      && Matches(newToOld, Beam(x, limit, iters, Init(x, limit, entry)), Beam(y, limit, iters, Init(y, limit, oldToNew[entry])))
  {
    if NoStrays(x.rows, entry) { ReachEnclosed(x.rows, entry); }
    RelabelledBeam(x, newToOld, oldToNew, limit, iters, entry, ReachSet(x.rows, entry));
  }

  /** Only reachable nodes are seen. */
  ghost predicate SeenReachable(x: Index, entry: nat, s: State) {
    entry in s.seen && forall v :: v in s.seen ==> v < |x.rows| && Reachable(x.rows, entry, v)
  }

  lemma {:induction false} SeeAllReachable(x: Index, limit: nat, entry: nat, s: State, cur: nat, row: seq<nat>)
    requires limit > 0 && SeenReachable(x, entry, s) && cur < |x.rows| && Reachable(x.rows, entry, cur)
    requires forall k :: 0 <= k < |row| ==> row[k] in x.rows[cur]
    ensures SeenReachable(x, entry, SeeAll(x, limit, s, row))
  {
    if row != [] {
      var init, v := row[..|row| - 1], row[|row| - 1];
      SeeAllReachable(x, limit, entry, s, cur, init);
      if v < |x.rows| {
        assert row[|row| - 1] in x.rows[cur] && Edge(x.rows, cur, v);
        ReachStep(x.rows, entry, cur, v);
      }
    }
  }

  lemma {:induction false} BeamReachable(x: Index, limit: nat, entry: nat, s: State)
    requires limit > 0 && BeamInv(x, limit, s) && NeighboursSeen(x, s) && SeenReachable(x, entry, s)
    ensures SeenReachable(x, entry, Beam(x, limit, 0, s))
    decreases Nodes(|x.rows|) - s.expanded
  {
    var b := Pick(s.cand, s.expanded, |s.cand|);
    if b.Some? {
      var cur := s.cand[b.value].id;
      assert HasId(s.cand, cur);
      ExpandKeeps(x, limit, s, cur);
      assert cur in Nodes(|x.rows|) - s.expanded;
      SeeAllReachable(x, limit, entry, s.(expanded := s.expanded + {cur}, expands := s.expands + 1), cur, x.rows[cur]);
      BeamReachable(x, limit, entry, Expand(x, limit, s, cur));
    }
  }

  /** A list with room for every node keeps everything it has seen. */
  lemma NothingDropped(x: Index, limit: nat, s: State, v: nat)
    requires BeamInv(x, limit, s) && limit >= |x.rows| == |x.pq| && v in s.seen && v < |x.rows|
    ensures HasId(s.cand, v)
  {
    if !HasId(s.cand, v) {
      var ids: seq<nat> := seq(|s.cand|, k requires 0 <= k < |s.cand| => s.cand[k].id);
      DistinctBound(ids + [v], |x.rows|);
    }
  }

  /** Everything reachable is seen once every node seen is expanded. */
  lemma {:induction false} AllSeen(x: Index, entry: nat, s: State, v: nat, d: nat)
    requires NeighboursSeen(x, s) && entry in s.seen && v < |x.rows| && entry < |x.rows| && Within(x.rows, entry, v, d)
    requires forall u :: u in s.seen ==> u in s.expanded
    ensures v in s.seen
    decreases d
  {
    if d > 0 {
      if Within(x.rows, entry, v, d - 1) {
        AllSeen(x, entry, s, v, d - 1);
      } else {
        var u: nat :| Edge(x.rows, u, v) && Within(x.rows, entry, u, d - 1);
        AllSeen(x, entry, s, u, d - 1);
        var k :| 0 <= k < |x.rows[u]| && x.rows[u][k] == v;
      }
    }
  }

  /** A search wide enough for every node, without an expansion limit, returns exactly the reachable nodes. */
  lemma FullSearch(x: Index, limit: nat, entry: nat)
    requires limit > 0 && limit >= |x.rows| == |x.pq| && entry < |x.rows|
    ensures Closed(x, Init(x, limit, entry))
    ensures forall v: nat :: v < |x.rows| ==> (HasId(Beam(x, limit, 0, Init(x, limit, entry)).cand, v) <==> Reachable(x.rows, entry, v))
  {
    InitKeeps(x, limit, entry);
    var s := Init(x, limit, entry);
    assert Within(x.rows, entry, entry, 0);
    BeamResult(x, limit, 0, s);
    BeamReachable(x, limit, entry, s);
    var t := Beam(x, limit, 0, s);
    FullClosed(x, limit, t);
    forall v: nat | v < |x.rows| ensures HasId(t.cand, v) <==> Reachable(x.rows, entry, v) {
      if Reachable(x.rows, entry, v) {
        var d: nat :| Within(x.rows, entry, v, d);
        AllSeen(x, entry, t, v, d);
        NothingDropped(x, limit, t, v);
      }
    }
  }

  lemma FullClosed(x: Index, limit: nat, t: State)
    requires BeamInv(x, limit, t) && limit >= |x.rows| == |x.pq| && forall v :: v in t.seen ==> v < |x.rows|
    requires forall k :: 0 <= k < |t.cand| ==> t.cand[k].id in t.expanded
    ensures forall u :: u in t.seen ==> u in t.expanded
  {
    forall u | u in t.seen ensures u in t.expanded { NothingDropped(x, limit, t, u); }
  }

  /** `v` is among the results on the new index exactly when it is on the old one. */
  ghost predicate FoundAlike(x: Index, newToOld: seq<nat>, oldToNew: seq<nat>, limit: nat, entry: nat, v: nat)
    requires limit > 0 && Renumbering(newToOld, oldToNew) && |newToOld| == |x.rows| == |x.pq| && entry < |x.rows| && v < |x.rows|
  {
    var y := RemapIndex(x, newToOld, oldToNew);
    && Closed(x, Init(x, limit, entry)) && Closed(y, Init(y, limit, oldToNew[entry]))
    && (HasId(Beam(y, limit, 0, Init(y, limit, oldToNew[entry])).cand, oldToNew[v]) <==> HasId(Beam(x, limit, 0, Init(x, limit, entry)).cand, v))
  }

  /** The full search of the renumbered index finds the renumbered nodes exactly when the strays are harmless. */
  lemma FullSearchKeptIff(x: Index, newToOld: seq<nat>, oldToNew: seq<nat>, limit: nat, entry: nat)
    requires limit > 0 && Renumbering(newToOld, oldToNew) && |newToOld| == |x.rows| == |x.pq| <= limit && entry < |x.rows|
    ensures (forall v: nat :: v < |x.rows| ==> FoundAlike(x, newToOld, oldToNew, limit, entry, v)) <==> StraysHarmless(x.rows, newToOld, entry)
  {
    var y := RemapIndex(x, newToOld, oldToNew);
    FullSearch(x, limit, entry);
    FullSearch(y, limit, oldToNew[entry]);
    ReachKeptIff(x.rows, newToOld, oldToNew, entry);
    forall v: nat | v < |x.rows| ensures FoundAlike(x, newToOld, oldToNew, limit, entry, v) <==> ReachKept(x.rows, newToOld, oldToNew, entry, v) {
      assert oldToNew[v] < |y.rows|;
    }
  }
}
