/** What the beam computes: the best of everything it has seen, closed under expansion. */
module BeamProofs {
  import opened Common
  import opened BeamSpec

  ghost predicate HasId(cand: seq<Cand>, id: nat) {
    exists k :: 0 <= k < |cand| && cand[k].id == id
  }

  ghost predicate DistinctIds(cand: seq<Cand>) {
    forall i, j :: 0 <= i < j < |cand| ==> cand[i].id != cand[j].id
  }

  /** Every scored id that is not kept is no closer than anything kept, and the list is then full. */
  ghost predicate BestSeen(x: Index, limit: nat, s: State) {
    forall id :: id in s.seen && id < |x.pq| && !HasId(s.cand, id) ==>
      |s.cand| == limit && forall k :: 0 <= k < |s.cand| ==> s.cand[k].dist <= x.pq[id]
  }

  ghost predicate BeamInv(x: Index, limit: nat, s: State) {
    && Closed(x, s)
    && |s.cand| <= limit && DistinctIds(s.cand)
    && (forall k :: 0 <= k < |s.cand| ==> s.cand[k].id < |x.pq| && s.cand[k].dist == x.pq[s.cand[k].id] && s.cand[k].id in s.seen)
    && s.expanded <= s.seen
    && BestSeen(x, limit, s)
  }

  /** Every in-range neighbour of every expanded node has been seen. */
  ghost predicate NeighboursSeen(x: Index, s: State) {
    forall u, k :: u in s.expanded && u < |x.rows| && 0 <= k < |x.rows[u]| && x.rows[u][k] < |x.rows| ==> x.rows[u][k] in s.seen
  }

  lemma InsertKeeps(x: Index, limit: nat, s: State, id: nat)
    requires limit > 0 && BeamInv(x, limit, s) && id !in s.seen && id < |x.rows|
    ensures BeamInv(x, limit, s.(seen := s.seen + {id}, cand := Insert(x, s.cand, limit, id)))
  {
    var t := s.(seen := s.seen + {id}, cand := Insert(x, s.cand, limit, id));
    if id < |x.pq| {
      var c := Cand(x.pq[id], id);
      if |s.cand| >= limit {
        var w := Worst(s.cand);
        if c.dist < s.cand[w].dist {
          ReplacedBest(x, limit, s, w, c);
        }
      } else {
        assert t.cand[|s.cand|].id == id;
        forall other | HasId(s.cand, other) ensures HasId(t.cand, other) {
          var k :| 0 <= k < |s.cand| && s.cand[k].id == other;
          assert t.cand[k].id == other;
        }
      }
    } else {
      assert t.cand == s.cand;
    }
  }

  /** `w` is the first of the farthest candidates. */
  ghost predicate FirstFarthest(cand: seq<Cand>, w: nat) {
    && w < |cand|
    && (forall k :: 0 <= k < |cand| ==> cand[k].dist <= cand[w].dist)
    && (forall k :: 0 <= k < w ==> cand[k].dist < cand[w].dist)
  }

  /**
   A node without a code leaves the list as it is, and so does one closer than no
   candidate of a full list; a list with room gets the node at its end; else it
   takes the place of the first of the farthest.
   */
  lemma InsertExact(x: Index, cand: seq<Cand>, limit: nat, id: nat)
    requires limit > 0
    ensures id >= |x.pq| ==> Insert(x, cand, limit, id) == cand
    ensures id < |x.pq| && |cand| < limit ==> Insert(x, cand, limit, id) == cand + [Cand(x.pq[id], id)]
    ensures id < |x.pq| && |cand| >= limit ==>
      if forall k :: 0 <= k < |cand| ==> cand[k].dist <= x.pq[id] then Insert(x, cand, limit, id) == cand
      else exists w: nat :: FirstFarthest(cand, w) && Insert(x, cand, limit, id) == cand[w := Cand(x.pq[id], id)]
  {
    if id < |x.pq| && |cand| >= limit {
      assert FirstFarthest(cand, Worst(cand));
    }
  }

  /** The neighbours of a row are seen one after another, each once. */
  lemma {:induction false} SeenInOrder(x: Index, limit: nat, s: State, a: seq<nat>, b: seq<nat>)
    requires limit > 0
    ensures SeeAll(x, limit, s, a + b) == SeeAll(x, limit, SeeAll(x, limit, s, a), b)
  {
    if b == [] {
      assert a + b == a;
    } else {
      var n := |b| - 1;
      SeenInOrder(x, limit, s, a, b[..n]);
      assert (a + b)[..|a| + n] == a + b[..n];
    }
  }

  lemma ReplacedBest(x: Index, limit: nat, s: State, w: nat, c: Cand)
    requires limit > 0 && BeamInv(x, limit, s) && |s.cand| == limit && w < |s.cand| && c.id < |x.pq| && c.dist == x.pq[c.id]
    requires c.id !in s.seen && c.dist < s.cand[w].dist && forall k :: 0 <= k < |s.cand| ==> s.cand[k].dist <= s.cand[w].dist
    ensures BestSeen(x, limit, s.(seen := s.seen + {c.id}, cand := s.cand[w := c]))
  {
    var t := s.(seen := s.seen + {c.id}, cand := s.cand[w := c]);
    assert t.cand[w].id == c.id;
    forall id | HasId(s.cand, id) && id != s.cand[w].id ensures HasId(t.cand, id) {
      var k :| 0 <= k < |s.cand| && s.cand[k].id == id;
      assert t.cand[k].id == id;
    }
  }

  lemma SeeKeeps(x: Index, limit: nat, s: State, nb: nat)
    requires limit > 0 && BeamInv(x, limit, s)
    ensures BeamInv(x, limit, See(x, limit, s, nb)) && s.seen <= See(x, limit, s, nb).seen
    ensures See(x, limit, s, nb).expanded == s.expanded && See(x, limit, s, nb).expands == s.expands
    ensures nb < |x.rows| ==> nb in See(x, limit, s, nb).seen
  {
    if nb < |x.rows| && nb !in s.seen { InsertKeeps(x, limit, s, nb); }
  }

  lemma {:induction false} SeeAllKeeps(x: Index, limit: nat, s: State, row: seq<nat>)
    requires limit > 0 && BeamInv(x, limit, s)
    ensures var t := SeeAll(x, limit, s, row);
      && BeamInv(x, limit, t) && s.seen <= t.seen && t.expanded == s.expanded && t.expands == s.expands
      && forall k :: 0 <= k < |row| && row[k] < |x.rows| ==> row[k] in t.seen
  {
    if row != [] {
      var init := row[..|row| - 1];
      SeeAllKeeps(x, limit, s, init);
      SeeKeeps(x, limit, SeeAll(x, limit, s, init), row[|row| - 1]);
      assert forall k :: 0 <= k < |init| ==> row[k] == init[k];
    }
  }

  lemma ExpandKeeps(x: Index, limit: nat, s: State, cur: nat)
    requires limit > 0 && BeamInv(x, limit, s) && NeighboursSeen(x, s) && HasId(s.cand, cur)
    ensures var t := Expand(x, limit, s, cur);
      && BeamInv(x, limit, t) && NeighboursSeen(x, t) && t.expanded == s.expanded + {cur} && t.expands == s.expands + 1
  {
    hide NeighboursSeen, SeeAll;
    var s1 := s.(expanded := s.expanded + {cur}, expands := s.expands + 1);
    MarkExpanded(x, limit, s, cur);
    hide BeamInv;
    SeeAllKeeps(x, limit, s1, x.rows[cur]);
    NeighboursAfter(x, s, Expand(x, limit, s, cur), cur);
  }

  lemma NeighboursAfter(x: Index, s: State, t: State, cur: nat)
    requires NeighboursSeen(x, s) && t.expanded == s.expanded + {cur} && s.seen <= t.seen && cur < |x.rows|
    requires forall k :: 0 <= k < |x.rows[cur]| && x.rows[cur][k] < |x.rows| ==> x.rows[cur][k] in t.seen
    ensures NeighboursSeen(x, t)
  {}

  lemma MarkExpanded(x: Index, limit: nat, s: State, cur: nat)
    requires limit > 0 && BeamInv(x, limit, s) && HasId(s.cand, cur)
    ensures cur < |x.rows| && BeamInv(x, limit, s.(expanded := s.expanded + {cur}, expands := s.expands + 1))
  {
    assert BestSeen(x, limit, s.(expanded := s.expanded + {cur}, expands := s.expands + 1));
    hide BestSeen, DistinctIds;
  }

  lemma InitKeeps(x: Index, limit: nat, entry: nat)
    requires limit > 0 && entry < |x.rows|
    ensures BeamInv(x, limit, Init(x, limit, entry)) && NeighboursSeen(x, Init(x, limit, entry))
  {
    var s := State([], {}, {}, 0);
    InsertKeeps(x, limit, s, entry);
    assert s.(seen := s.seen + {entry}, cand := Insert(x, s.cand, limit, entry)) == Init(x, limit, entry);
  }

  /**
   The beam's result: distinct candidates, at most the beam width, that are the
   best by PQ distance of everything seen; every in-range neighbour of an
   expanded node seen; and it stops with every kept candidate expanded unless
   the expansion limit came first.
   */
  lemma {:induction false} BeamResult(x: Index, limit: nat, iters: nat, s: State)
    requires limit > 0 && BeamInv(x, limit, s) && NeighboursSeen(x, s) && (iters != 0 ==> s.expands <= iters)
    ensures var t := Beam(x, limit, iters, s);
      && BeamInv(x, limit, t) && NeighboursSeen(x, t)
      && (iters != 0 ==> t.expands <= iters)
      && ((forall k :: 0 <= k < |t.cand| ==> t.cand[k].id in t.expanded) || (iters != 0 && t.expands == iters))
    decreases Nodes(|x.rows|) - s.expanded
  {
    if iters == 0 || s.expands < iters {
      var b := Pick(s.cand, s.expanded, |s.cand|);
      if b.Some? {
        var cur := s.cand[b.value].id;
        assert HasId(s.cand, cur);
        ExpandKeeps(x, limit, s, cur);
        assert cur in Nodes(|x.rows|) - s.expanded;
        BeamResult(x, limit, iters, Expand(x, limit, s, cur));
      }
    }
  }

  lemma {:induction false} SeeAllGrows(x: Index, limit: nat, s: State, row: seq<nat>)
    requires limit > 0
    ensures |s.cand| <= |SeeAll(x, limit, s, row).cand|
  {
    if row != [] { SeeAllGrows(x, limit, s, row[..|row| - 1]); }
  }

  /** The beam never has fewer candidates than before. */
  lemma {:induction false} BeamGrows(x: Index, limit: nat, iters: nat, s: State)
    requires limit > 0 && Closed(x, s)
    ensures |s.cand| <= |Beam(x, limit, iters, s).cand|
    ensures s.cand == [] ==> Beam(x, limit, iters, s) == s
    decreases Nodes(|x.rows|) - s.expanded
  {
    var b := Pick(s.cand, s.expanded, |s.cand|);
    if (iters == 0 || s.expands < iters) && b.Some? {
      var cur := s.cand[b.value].id;
      var t := s.(expanded := s.expanded + {cur}, expands := s.expands + 1);
      SeeAllClosed(x, limit, t, x.rows[cur]);
      SeeAllGrows(x, limit, t, x.rows[cur]);
      assert cur in Nodes(|x.rows|) - s.expanded;
      BeamGrows(x, limit, iters, Expand(x, limit, s, cur));
    }
  }
}
