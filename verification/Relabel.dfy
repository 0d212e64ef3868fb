/**
 Renumbering the nodes (the rewriting half of the layout tools) and what it
 does to a search: the beam on the renumbered index is the renumbered beam.
 */
module Relabel {
  import opened Common
  import opened BeamSpec

  /** `newToOld` and `oldToNew` undo each other. */
  ghost predicate Renumbering(newToOld: seq<nat>, oldToNew: seq<nat>) {
    && |newToOld| == |oldToNew|
    && (forall i :: 0 <= i < |newToOld| ==> newToOld[i] < |oldToNew| && oldToNew[newToOld[i]] == i)
    && (forall u :: 0 <= u < |oldToNew| ==> oldToNew[u] < |newToOld| && newToOld[oldToNew[u]] == u)
  }

  /** A neighbour that is not a node becomes node 0. */
  function RemapNeighbour(nb: nat, oldToNew: seq<nat>): nat {
    if nb < |oldToNew| then oldToNew[nb] else 0
  }

  function RemapRow(row: seq<nat>, oldToNew: seq<nat>): (r: seq<nat>) {
    seq(|row|, k requires 0 <= k < |row| => RemapNeighbour(row[k], oldToNew))
  }

  /** New row `i` is the renumbered old row `newToOld[i]`. */
  function RemapRows(rows: seq<seq<nat>>, newToOld: seq<nat>, oldToNew: seq<nat>): (r: seq<seq<nat>>)
    requires forall i :: 0 <= i < |newToOld| ==> newToOld[i] < |rows|
  {
    seq(|newToOld|, i requires 0 <= i < |newToOld| => RemapRow(rows[newToOld[i]], oldToNew))
  }

  function Permute<T>(s: seq<T>, newToOld: seq<nat>): (r: seq<T>)
    requires forall i :: 0 <= i < |newToOld| ==> newToOld[i] < |s|
  {
    seq(|newToOld|, i requires 0 <= i < |newToOld| => s[newToOld[i]])
  }

  /** The rewriting loop of the tools, row by row and neighbour by neighbour. */
  method WriteGraph(rows: seq<seq<nat>>, newToOld: seq<nat>, oldToNew: seq<nat>) returns (out: seq<seq<nat>>)
    requires |newToOld| == |oldToNew| == |rows| && forall i :: 0 <= i < |newToOld| ==> newToOld[i] < |rows|
    ensures out == RemapRows(rows, newToOld, oldToNew)
  {
    out := [];
    for ni := 0 to |rows|
      invariant |out| == ni && forall i :: 0 <= i < ni ==> out[i] == RemapRow(rows[newToOld[i]], oldToNew)
    {
      var src := rows[newToOld[ni]];
      var dst: seq<nat> := [];
      for k := 0 to |src|
        invariant |dst| == k && forall j :: 0 <= j < k ==> dst[j] == RemapNeighbour(src[j], oldToNew)
      {
        dst := dst + [if src[k] < |rows| then oldToNew[src[k]] else 0];
      }
      out := out + [dst];
    }
  }

  /** The record copies: new record `i` is old record `newToOld[i]`. */
  method WriteRecords<T>(recs: seq<T>, newToOld: seq<nat>) returns (out: seq<T>)
    requires forall i :: 0 <= i < |newToOld| ==> newToOld[i] < |recs|
    ensures out == Permute(recs, newToOld)
  {
    out := [];
    for ni := 0 to |newToOld|
      invariant |out| == ni && forall i :: 0 <= i < ni ==> out[i] == recs[newToOld[i]]
    {
      out := out + [recs[newToOld[ni]]];
    }
  }

  function RemapIndex(x: Index, newToOld: seq<nat>, oldToNew: seq<nat>): (r: Index)
    requires Renumbering(newToOld, oldToNew) && |newToOld| == |x.rows| == |x.pq|
  {
    Index(RemapRows(x.rows, newToOld, oldToNew), Permute(x.pq, newToOld))
  }

  // ------------------------------------------------------------ the search, step for step

  /** Old state `s` and new state `t` agree position by position under the renumbering. */
  ghost predicate Matches(newToOld: seq<nat>, s: State, t: State) {
    && |s.cand| == |t.cand| && s.expands == t.expands
    && (forall k :: 0 <= k < |s.cand| ==>
          t.cand[k].id < |newToOld| && newToOld[t.cand[k].id] == s.cand[k].id && t.cand[k].dist == s.cand[k].dist)
    && (forall i :: 0 <= i < |newToOld| ==> (i in t.seen <==> newToOld[i] in s.seen))
    && (forall i :: 0 <= i < |newToOld| ==> (i in t.expanded <==> newToOld[i] in s.expanded))
    && (forall i :: i in t.expanded ==> i < |newToOld|)
  }

  /** The rows of `inside` name nodes of `inside` only. */
  ghost predicate Enclosed(rows: seq<seq<nat>>, inside: set<nat>) {
    forall u :: u in inside ==> u < |rows| && RowInside(rows, inside, u)
  }

  ghost predicate RowInside(rows: seq<seq<nat>>, inside: set<nat>, u: nat)
    requires u < |rows|
  {
    forall k :: 0 <= k < |rows[u]| ==> rows[u][k] < |rows| && rows[u][k] in inside
  }

  ghost predicate CandsInside(cand: seq<Cand>, inside: set<nat>) {
    forall k :: 0 <= k < |cand| ==> cand[k].id in inside
  }

  /** Neighbours that are not nodes do no harm: the search stays where there are none, or the node that new id 0 stands for is already seen. */
  ghost predicate Harmless(x: Index, newToOld: seq<nat>, inside: set<nat>, s: State) {
    || (Enclosed(x.rows, inside) && CandsInside(s.cand, inside))
    || (newToOld != [] && newToOld[0] in s.seen)
  }

  lemma {:induction false} SameWorst(a: seq<Cand>, b: seq<Cand>)
    requires a != [] && |a| == |b| && forall k :: 0 <= k < |a| ==> a[k].dist == b[k].dist
    ensures Worst(a) == Worst(b)
  {
    if |a| > 1 { SameWorst(a[..|a| - 1], b[..|b| - 1]); }
  }

  lemma {:induction false} SamePick(newToOld: seq<nat>, s: State, t: State, n: nat)
    requires Matches(newToOld, s, t) && n <= |s.cand|
    ensures Pick(s.cand, s.expanded, n) == Pick(t.cand, t.expanded, n)
  {
    if n > 0 { SamePick(newToOld, s, t, n - 1); }
  }

  lemma MatchInsert(x: Index, newToOld: seq<nat>, oldToNew: seq<nat>, limit: nat, s: State, t: State, nb: nat)
    requires limit > 0 && Renumbering(newToOld, oldToNew) && |newToOld| == |x.rows| == |x.pq| && Matches(newToOld, s, t) && nb < |x.rows|
    ensures var y := RemapIndex(x, newToOld, oldToNew); var nb' := oldToNew[nb];
      Matches(newToOld,
              s.(seen := s.seen + {nb}, cand := Insert(x, s.cand, limit, nb)),
              t.(seen := t.seen + {nb'}, cand := Insert(y, t.cand, limit, nb')))
  {
    if |s.cand| >= limit { SameWorst(s.cand, t.cand); }
  }

  lemma MatchSee(x: Index, newToOld: seq<nat>, oldToNew: seq<nat>, limit: nat, s: State, t: State, nb: nat)
    requires limit > 0 && Renumbering(newToOld, oldToNew) && |newToOld| == |x.rows| == |x.pq| && Matches(newToOld, s, t)
    requires nb < |x.rows| || (newToOld != [] && newToOld[0] in s.seen)
    ensures Matches(newToOld, See(x, limit, s, nb), See(RemapIndex(x, newToOld, oldToNew), limit, t, RemapNeighbour(nb, oldToNew)))
    ensures s.seen <= See(x, limit, s, nb).seen
  {
    if nb < |x.rows| {
      assert newToOld[oldToNew[nb]] == nb;
      if nb !in s.seen { MatchInsert(x, newToOld, oldToNew, limit, s, t, nb); }
    }
  }

  lemma {:induction false} MatchSeeAll(x: Index, newToOld: seq<nat>, oldToNew: seq<nat>, limit: nat, s: State, t: State, row: seq<nat>)
    requires limit > 0 && Renumbering(newToOld, oldToNew) && |newToOld| == |x.rows| == |x.pq| && Matches(newToOld, s, t)
    requires (forall k :: 0 <= k < |row| ==> row[k] < |x.rows|) || (newToOld != [] && newToOld[0] in s.seen)
    ensures Matches(newToOld, SeeAll(x, limit, s, row), SeeAll(RemapIndex(x, newToOld, oldToNew), limit, t, RemapRow(row, oldToNew)))
    ensures s.seen <= SeeAll(x, limit, s, row).seen
  {
    if row != [] {
      var init := row[..|row| - 1];
      assert RemapRow(row, oldToNew)[..|row| - 1] == RemapRow(init, oldToNew);
      MatchSeeAll(x, newToOld, oldToNew, limit, s, t, init);
      MatchSee(x, newToOld, oldToNew, limit, SeeAll(x, limit, s, init),
               SeeAll(RemapIndex(x, newToOld, oldToNew), limit, t, RemapRow(init, oldToNew)), row[|row| - 1]);
    }
  }

  lemma MatchExpand(x: Index, newToOld: seq<nat>, oldToNew: seq<nat>, limit: nat, inside: set<nat>, s: State, t: State, b: nat)
    requires limit > 0 && Renumbering(newToOld, oldToNew) && |newToOld| == |x.rows| == |x.pq| && Matches(newToOld, s, t)
    requires b < |s.cand| && Harmless(x, newToOld, inside, s)
    ensures var y := RemapIndex(x, newToOld, oldToNew);
      && Matches(newToOld, Expand(x, limit, s, s.cand[b].id), Expand(y, limit, t, t.cand[b].id))
      && Harmless(x, newToOld, inside, Expand(x, limit, s, s.cand[b].id))
  {
    hide SeeAll;
    var cur, cur' := s.cand[b].id, t.cand[b].id;
    var y := RemapIndex(x, newToOld, oldToNew);
    MovedRow(x, newToOld, oldToNew, cur, cur');
    var s1 := s.(expanded := s.expanded + {cur}, expands := s.expands + 1);
    var t1 := t.(expanded := t.expanded + {cur'}, expands := t.expands + 1);
    MatchMark(newToOld, oldToNew, s, t, cur');
    if !(newToOld != [] && newToOld[0] in s.seen) {
      assert RowInside(x.rows, inside, cur);
      SeenInside(x, limit, inside, s1, x.rows[cur]);
    }
    MatchSeeAll(x, newToOld, oldToNew, limit, s1, t1, x.rows[cur]);
  }

  lemma MovedRow(x: Index, newToOld: seq<nat>, oldToNew: seq<nat>, cur: nat, cur': nat)
    requires Renumbering(newToOld, oldToNew) && |newToOld| == |x.rows| == |x.pq| && cur' < |newToOld| && newToOld[cur'] == cur
    ensures cur < |x.rows| && |RemapIndex(x, newToOld, oldToNew).rows| == |x.rows|
    ensures RemapIndex(x, newToOld, oldToNew).rows[cur'] == RemapRow(x.rows[cur], oldToNew)
  {
    assert oldToNew[newToOld[cur']] == cur';
  }

  /** Marking a node and its image expanded keeps the agreement. */
  lemma MatchMark(newToOld: seq<nat>, oldToNew: seq<nat>, s: State, t: State, v: nat)
    requires Matches(newToOld, s, t) && v < |newToOld| && Renumbering(newToOld, oldToNew)
    ensures Matches(newToOld, s.(expanded := s.expanded + {newToOld[v]}, expands := s.expands + 1),
                    t.(expanded := t.expanded + {v}, expands := t.expands + 1))
  {}

  /** Candidates come from the row or were there before. */
  lemma {:induction false} SeenInside(x: Index, limit: nat, inside: set<nat>, s: State, row: seq<nat>)
    requires limit > 0
    requires CandsInside(s.cand, inside) && forall k :: 0 <= k < |row| ==> row[k] in inside
    ensures CandsInside(SeeAll(x, limit, s, row).cand, inside)
  {
    if row != [] {
      var init := row[..|row| - 1];
      forall k | 0 <= k < |init| ensures init[k] in inside { assert init[k] == row[k]; }
      SeenInside(x, limit, inside, s, init);
      OneInside(x, limit, inside, SeeAll(x, limit, s, init), row[|row| - 1]);
    }
  }

  lemma OneInside(x: Index, limit: nat, inside: set<nat>, s: State, nb: nat)
    requires limit > 0 && nb in inside && CandsInside(s.cand, inside)
    ensures CandsInside(See(x, limit, s, nb).cand, inside)
  {}

  lemma MatchClosed(x: Index, newToOld: seq<nat>, oldToNew: seq<nat>, s: State, t: State)
    requires Renumbering(newToOld, oldToNew) && |newToOld| == |x.rows| == |x.pq| && Matches(newToOld, s, t)
    ensures Closed(RemapIndex(x, newToOld, oldToNew), t)
  {}

  /** Run side by side, the two beams agree at every step, so also at the end. */
  lemma {:induction false} MatchBeam(x: Index, newToOld: seq<nat>, oldToNew: seq<nat>, limit: nat, iters: nat, inside: set<nat>, s: State, t: State)
    requires limit > 0 && Renumbering(newToOld, oldToNew) && |newToOld| == |x.rows| == |x.pq| && Matches(newToOld, s, t)
    requires Closed(x, s) && Closed(RemapIndex(x, newToOld, oldToNew), t) && Harmless(x, newToOld, inside, s)
    ensures Matches(newToOld, Beam(x, limit, iters, s), Beam(RemapIndex(x, newToOld, oldToNew), limit, iters, t))
    decreases Nodes(|x.rows|) - s.expanded
  {
    var y := RemapIndex(x, newToOld, oldToNew);
    SamePick(newToOld, s, t, |s.cand|);
    if !(iters != 0 && s.expands >= iters) {
      var b := Pick(s.cand, s.expanded, |s.cand|);
      if b.Some? {
        var cur := s.cand[b.value].id;
        MatchExpand(x, newToOld, oldToNew, limit, inside, s, t, b.value);
        SeeAllClosed(x, limit, s.(expanded := s.expanded + {cur}, expands := s.expands + 1), x.rows[cur]);
        assert cur in Nodes(|x.rows|) - s.expanded;
        SeeAllGrows(x, limit, s.(expanded := s.expanded + {cur}, expands := s.expands + 1), x.rows[cur]);
        var s', t' := Expand(x, limit, s, cur), Expand(y, limit, t, t.cand[b.value].id);
        MatchClosed(x, newToOld, oldToNew, s', t');
        MatchBeam(x, newToOld, oldToNew, limit, iters, inside, s', t');
      }
    }
  }

  lemma {:induction false} SeeAllGrows(x: Index, limit: nat, s: State, row: seq<nat>)
    requires limit > 0
    ensures SeeAll(x, limit, s, row).expanded == s.expanded
  {
    if row != [] { SeeAllGrows(x, limit, s, row[..|row| - 1]); }
  }

  /**
   Renumbering preserves the search.  Graph, PQ codes and entry renumbered
   together, the candidate list of the new search is the old one with its ids
   renumbered, entry for entry, provided the entry lies among nodes whose
   neighbours are nodes and lie there too, or the search starts at the node
   that became 0.
   */
  lemma RelabelledBeam(x: Index, newToOld: seq<nat>, oldToNew: seq<nat>, limit: nat, iters: nat, entry: nat, inside: set<nat>)
    requires limit > 0 && Renumbering(newToOld, oldToNew) && |newToOld| == |x.rows| == |x.pq| && entry < |x.rows|
    requires (entry in inside && Enclosed(x.rows, inside)) || oldToNew[entry] == 0
    ensures var y := RemapIndex(x, newToOld, oldToNew);
      && Closed(x, Init(x, limit, entry)) && Closed(y, Init(y, limit, oldToNew[entry]))
      && Matches(newToOld, Beam(x, limit, iters, Init(x, limit, entry)), Beam(y, limit, iters, Init(y, limit, oldToNew[entry])))
  {
    var s0 := State([], {}, {}, 0);
    assert Matches(newToOld, s0, s0);
    MatchInsert(x, newToOld, oldToNew, limit, s0, s0, entry);
    var y := RemapIndex(x, newToOld, oldToNew);
    var s, t := Init(x, limit, entry), Init(y, limit, oldToNew[entry]);
    assert s == s0.(seen := s0.seen + {entry}, cand := Insert(x, s0.cand, limit, entry));
    assert t == s0.(seen := s0.seen + {oldToNew[entry]}, cand := Insert(y, s0.cand, limit, oldToNew[entry]));
    MatchClosed(x, newToOld, oldToNew, s, t);
    MatchBeam(x, newToOld, oldToNew, limit, iters, inside, s, t);
  }

  // ------------------------------------------------------------ neighbours that are not nodes

  /** Two nodes, the second listing an id that is no node: renumbered, it gains an edge to node 0 and the search a result. */
  lemma StrayNeighbourChangesSearch()
    ensures var x := Index([[], [9]], [2.0, 1.0]);
      var y := RemapIndex(x, [0, 1], [0, 1]);
      && Closed(x, Init(x, 4, 1)) && Closed(y, Init(y, 4, 1))
      && |Beam(x, 4, 0, Init(x, 4, 1)).cand| == 1 && |Beam(y, 4, 0, Init(y, 4, 1)).cand| == 2
  {
    hide SeeAll, Pick, Insert, Beam, Expand;
    StrayOld();
    StrayNew();
    var x := Index([[], [9]], [2.0, 1.0]);
    var y := RemapIndex(x, [0, 1], [0, 1]);
    assert y.rows[1] == [0] && y.rows[0] == [];
    assert y.rows == [[], [0]] && y.pq == [2.0, 1.0];
    assert y == Index([[], [0]], [2.0, 1.0]);
  }

  lemma StrayOld()
    ensures var x := Index([[], [9]], [2.0, 1.0]);
      Closed(x, Init(x, 4, 1)) && Beam(x, 4, 0, Init(x, 4, 1)).cand == [Cand(1.0, 1)]
  {
    hide SeeAll, Pick, Beam, Expand;
    var x := Index([[], [9]], [2.0, 1.0]);
    var s, s1 := State([Cand(1.0, 1)], {1}, {}, 0), State([Cand(1.0, 1)], {1}, {1}, 1);
    assert Init(x, 4, 1) == s;
    PickLast(s.cand, {});
    NothingSeen(x, s, 1);
    Next(x, s, 0, s1);
    Last(x, s1);
  }

  lemma StrayNew()
    ensures var y := Index([[], [0]], [2.0, 1.0]);
      Closed(y, Init(y, 4, 1)) && Beam(y, 4, 0, Init(y, 4, 1)).cand == [Cand(1.0, 1), Cand(2.0, 0)]
  {
    hide SeeAll, Pick, Beam, Expand;
    var y := Index([[], [0]], [2.0, 1.0]);
    var s := State([Cand(1.0, 1)], {1}, {}, 0);
    var s1 := State([Cand(1.0, 1), Cand(2.0, 0)], {1, 0}, {1}, 1);
    var s2 := State(s1.cand, {1, 0}, {1, 0}, 2);
    assert Init(y, 4, 1) == s;
    PickLast(s.cand, {});
    OneSeen(y, s, s1);
    Next(y, s, 0, s1);
    PickLast(s1.cand, {1});
    NothingSeen(y, s1, 0);
    Next(y, s1, 1, s2);
    Last(y, s2);
  }

  /** One step of the beam without an expansion limit. */
  lemma Next(x: Index, s: State, b: nat, t: State)
    requires Closed(x, s) && Pick(s.cand, s.expanded, |s.cand|) == Some(b) && t == Expand(x, 4, s, s.cand[b].id)
    ensures Closed(x, t) && Beam(x, 4, 0, s) == Beam(x, 4, 0, t)
  {
    SeeAllClosed(x, 4, s.(expanded := s.expanded + {s.cand[b].id}, expands := s.expands + 1), x.rows[s.cand[b].id]);
  }

  lemma Last(x: Index, s: State)
    requires Closed(x, s) && forall k :: 0 <= k < |s.cand| ==> s.cand[k].id in s.expanded
    ensures Beam(x, 4, 0, s) == s
  {
    assert Pick(s.cand, s.expanded, |s.cand|) == None;
  }

  /** Only the last candidate is left to expand. */
  lemma PickLast(cand: seq<Cand>, expanded: set<nat>)
    requires cand != [] && cand[|cand| - 1].id !in expanded
    requires forall k :: 0 <= k < |cand| - 1 ==> cand[k].id in expanded
    ensures Pick(cand, expanded, |cand|) == Some(|cand| - 1)
  {}

  /** Node `cur` has no neighbour that is a node. */
  lemma NothingSeen(x: Index, s: State, cur: nat)
    requires cur < |x.rows| && (x.rows[cur] == [] || (|x.rows[cur]| == 1 && x.rows[cur][0] >= |x.rows|))
    ensures Expand(x, 4, s, cur) == s.(expanded := s.expanded + {cur}, expands := s.expands + 1)
  {
    var u := s.(expanded := s.expanded + {cur}, expands := s.expands + 1);
    if x.rows[cur] != [] {
      assert x.rows[cur][..0] == [];
      assert SeeAll(x, 4, u, x.rows[cur][..0]) == u;
    }
  }

  /** Node 1 leads to node 0. */
  lemma OneSeen(y: Index, s: State, t: State)
    requires y == Index([[], [0]], [2.0, 1.0]) && s == State([Cand(1.0, 1)], {1}, {}, 0)
    requires t == State([Cand(1.0, 1), Cand(2.0, 0)], {1, 0}, {1}, 1)
    ensures Expand(y, 4, s, 1) == t
  {
    var u := s.(expanded := s.expanded + {1}, expands := s.expands + 1);
    assert y.rows[1] == [0] && [0][..0] == [];
    assert SeeAll(y, 4, u, [0][..0]) == u;
    assert SeeAll(y, 4, u, [0]) == See(y, 4, u, 0);
    assert u.expanded == {1} && u.seen + {0} == {1, 0};
  }
}
