/**
 One query on its way through the search (serving/search_beam.cpp): the beam
 over PQ distances, the full-precision rerank, and the final sort.
 */
module Query {
  import opened Common
  import opened BeamSpec
  import opened BeamProofs
  import opened Relabel

  function Ids(cand: seq<Cand>): (r: seq<nat>) {
    seq(|cand|, i requires 0 <= i < |cand| => cand[i].id)
  }

  // ------------------------------------------------------------ what an answer is

  /**
   `out` is a k-prefix of `ids` in the order of `score`: nothing repeated,
   nothing out of order, nothing closer left out.
   */
  ghost predicate KPrefix(score: seq<real>, ids: seq<nat>, k: nat, out: seq<nat>)
    requires forall i :: 0 <= i < |ids| ==> ids[i] < |score|
  {
    && |out| == (if k < |ids| then k else |ids|)
    && Distinct(out)
    && (forall i :: 0 <= i < |out| ==> out[i] in ids)
    && (forall i, j :: 0 <= i < j < |out| && out[i] < |score| && out[j] < |score| ==> score[out[i]] <= score[out[j]])
    && (forall i, id :: 0 <= i < |out| && id in ids && id !in out && out[i] < |score| ==> score[out[i]] <= score[id])
  }

  ghost predicate SortedByDist(cand: seq<Cand>) {
    forall i, j :: 0 <= i < j < |cand| ==> cand[i].dist <= cand[j].dist
  }

  /** Whatever order the sort leaves ties in, its first k ids answer the query. */
  lemma SortedIsPrefix(score: seq<real>, cand: seq<Cand>, sorted: seq<Cand>, k: nat)
    requires DistinctIds(cand) && multiset(sorted) == multiset(cand) && SortedByDist(sorted)
    requires forall i :: 0 <= i < |cand| ==> cand[i].id < |score| && cand[i].dist == score[cand[i].id]
    ensures |sorted| == |cand| && KPrefix(score, Ids(cand), k, Ids(sorted[..if k < |sorted| then k else |sorted|]))
  {
    hide KPrefix, SortedByDist, DistinctIds, Ids;
    SameMembers(cand, sorted);
    SortedDistinct(cand, sorted);
    forall q | 0 <= q < |sorted| ensures sorted[q].id in Ids(cand) && sorted[q].id < |score| && sorted[q].dist == score[sorted[q].id] {
      var j :| 0 <= j < |cand| && cand[j] == sorted[q];
      IdAt(cand, j);
    }
    forall i | 0 <= i < |Ids(cand)| ensures Ids(cand)[i] in Ids(sorted) && Ids(cand)[i] < |score| {
      IdsIn(cand, Ids(cand)[i]);
      var j :| 0 <= j < |cand| && cand[j].id == Ids(cand)[i];
      var p :| 0 <= p < |sorted| && sorted[p] == cand[j];
      IdAt(sorted, p);
    }
    IdsLength(cand);
    TopIsPrefix(score, Ids(cand), sorted, k);
  }

  lemma IdsLength(cand: seq<Cand>)
    ensures |Ids(cand)| == |cand|
  {}

  lemma IdAt(cand: seq<Cand>, i: nat)
    requires i < |cand|
    ensures i < |Ids(cand)| && Ids(cand)[i] == cand[i].id && cand[i].id in Ids(cand)
  {
    assert Ids(cand)[i] == cand[i].id;
  }

  lemma IdsIn(cand: seq<Cand>, id: nat)
    requires id in Ids(cand)
    ensures exists j :: 0 <= j < |cand| && cand[j].id == id
  {
    var j :| 0 <= j < |Ids(cand)| && Ids(cand)[j] == id;
    assert cand[j].id == id;
  }

  /** The first `k` of a sorted list, all scored, of exactly the ids `ids`. */
  lemma TopIsPrefix(score: seq<real>, ids: seq<nat>, sorted: seq<Cand>, k: nat)
    requires SortedByDist(sorted) && DistinctIds(sorted) && |sorted| == |ids|
    requires forall i :: 0 <= i < |ids| ==> ids[i] in Ids(sorted) && ids[i] < |score|
    requires forall q :: 0 <= q < |sorted| ==> sorted[q].id in ids && sorted[q].id < |score| && sorted[q].dist == score[sorted[q].id]
    ensures KPrefix(score, ids, k, Ids(sorted[..if k < |sorted| then k else |sorted|]))
  {
    var n := if k < |sorted| then k else |sorted|;
    var out := Ids(sorted[..n]);
    forall q | 0 <= q < n ensures out[q] == sorted[q].id && sorted[q].id in out && out[q] in ids {
      IdAt(sorted[..n], q);
    }
    forall i, id | 0 <= i < |out| && id in ids && id !in out ensures score[out[i]] <= score[id] {
      IdsIn(sorted, id);
      var p :| 0 <= p < |sorted| && sorted[p].id == id;
      assert p >= n;
    }
  }

  lemma SameMembers(cand: seq<Cand>, sorted: seq<Cand>)
    requires multiset(sorted) == multiset(cand)
    ensures |sorted| == |cand|
    ensures forall q :: 0 <= q < |sorted| ==> sorted[q] in cand
    ensures forall j :: 0 <= j < |cand| ==> cand[j] in sorted
  {
    assert |multiset(sorted)| == |multiset(cand)|;
    forall q | 0 <= q < |sorted| ensures sorted[q] in cand { assert sorted[q] in multiset(sorted); }
    forall j | 0 <= j < |cand| ensures cand[j] in sorted { assert cand[j] in multiset(cand); }
  }

  lemma SortedDistinct(cand: seq<Cand>, sorted: seq<Cand>)
    requires DistinctIds(cand) && multiset(sorted) == multiset(cand)
    ensures DistinctIds(sorted)
  {
    forall i, j | 0 <= i < j < |sorted| ensures sorted[i].id != sorted[j].id {
      var a, b := sorted[i], sorted[j];
      assert a in multiset(sorted) && b in multiset(sorted);
      var p :| 0 <= p < |cand| && cand[p] == a;
      var q :| 0 <= q < |cand| && cand[q] == b;
      if p == q { TwiceInMultiset(sorted, i, j); OnceInMultiset(cand, p); }
    }
  }

  lemma TwiceInMultiset(s: seq<Cand>, i: nat, j: nat)
    requires i < j < |s| && s[i] == s[j]
    ensures multiset(s)[s[i]] >= 2
  {
    assert s == s[..i] + [s[i]] + s[i + 1..j] + [s[j]] + s[j + 1..];
  }

  lemma OnceInMultiset(s: seq<Cand>, i: nat)
    requires DistinctIds(s) && i < |s|
    ensures multiset(s)[s[i]] == 1
  {
    assert s == s[..i] + [s[i]] + s[i + 1..];
  }

  /** The first `n` reads all came through. */
  predicate Got(got: seq<Option<real>>, n: nat)
    requires n <= |got|
  {
    forall i :: 0 <= i < n ==> got[i].Some?
  }

  /** The candidates a rank attempt leaves: rescored up to the first failed read. */
  function Ranked(cand: seq<Cand>, got: seq<Option<real>>): (r: seq<Cand>)
    requires |got| == |cand|
    ensures |r| == |cand| && Ids(r) == Ids(cand)
  {
    var r := seq(|cand|, i requires 0 <= i < |cand| => if Got(got, i + 1) then Cand(got[i].value, cand[i].id) else cand[i]);
    assert forall i :: 0 <= i < |cand| ==> r[i].id == cand[i].id;
    r
  }

  /** Reading candidate `j` failed: those before it carry new distances, the rest are as they were. */
  ghost predicate HalfRanked(before: seq<Cand>, after: seq<Cand>, got: seq<Option<real>>, j: nat)
    requires |before| == |after| == |got|
  {
    && j < |got| && got[j].None?
    && (forall i :: 0 <= i < j ==> got[i].Some? && after[i].dist == got[i].value)
    && (forall i :: j <= i < |after| ==> after[i] == before[i])
  }

  /** One turn of the beam loop. */
  lemma BeamTurn(x: Index, limit: nat, iters: nat, s: State)
    requires limit > 0 && Closed(x, s) && Pick(s.cand, s.expanded, |s.cand|).Some? && (iters == 0 || s.expands < iters)
    ensures var cur := s.cand[Pick(s.cand, s.expanded, |s.cand|).value].id;
      && cur < |x.rows| && Closed(x, Expand(x, limit, s, cur)) && Beam(x, limit, iters, s) == Beam(x, limit, iters, Expand(x, limit, s, cur))
      && Expand(x, limit, s, cur).expanded == s.expanded + {cur} && Expand(x, limit, s, cur).expands == s.expands + 1
  {
    var cur := s.cand[Pick(s.cand, s.expanded, |s.cand|).value].id;
    SeeAllClosed(x, limit, s.(expanded := s.expanded + {cur}, expands := s.expands + 1), x.rows[cur]);
  }

  /** The beam stops at its limit, or with nothing left to expand. */
  lemma BeamOver(x: Index, limit: nat, iters: nat, s: State)
    requires limit > 0 && Closed(x, s) && (Pick(s.cand, s.expanded, |s.cand|).None? || (iters != 0 && s.expands >= iters))
    ensures Beam(x, limit, iters, s) == s
  {}

  lemma OneNodeLess(x: Index, s: State, cur: nat)
    requires Closed(x, s) && cur < |x.rows| && cur !in s.expanded
    ensures Nodes(|x.rows|) - (s.expanded + {cur}) < Nodes(|x.rows|) - s.expanded
  {
    assert cur in Nodes(|x.rows|) - s.expanded;
  }

  class PqQuery {
    var cand: seq<Cand>
    var seen: set<nat>
    var expanded: set<nat>
    var expands: nat

    ghost function Abs(): State
      reads this
    {
      State(cand, seen, expanded, expands)
    }

    /** `pqq_init`: the entry is seen and scored, nothing is expanded. */
    constructor (x: Index, limit: nat, entry: nat)
      requires limit > 0
      ensures Abs() == Init(x, limit, entry)
    {
      cand := if entry >= |x.pq| then [] else [Cand(x.pq[entry], entry)];
      seen := {entry};
      expanded := {};
      expands := 0;
    }

    /** `pqq_insert`. */
    method Insert(x: Index, limit: nat, id: nat)
      requires limit > 0
      modifies this`cand
      ensures cand == BeamSpec.Insert(x, old(cand), limit, id)
    {
      if id >= |x.pq| { return; }
      var d := x.pq[id];
      if |cand| >= limit {
        var w := FindWorst();
        if d >= cand[w].dist { return; }
        cand := cand[w := Cand(d, id)];
      } else {
        cand := cand + [Cand(d, id)];
      }
    }

    method FindWorst() returns (w: nat)
      requires cand != []
      ensures w == Worst(cand)
    {
      w := 0;
      for i := 1 to |cand|
        invariant w == Worst(cand[..i])
      {
        assert cand[..i + 1][..i] == cand[..i];
        if cand[w].dist < cand[i].dist { w := i; }
      }
      assert cand[..|cand|] == cand;
    }

    method FindNext() returns (r: Option<nat>)
      ensures r == Pick(cand, expanded, |cand|)
    {
      r := None;
      for i := 0 to |cand|
        invariant r == Pick(cand, expanded, i)
      {
        if cand[i].id in expanded { continue; }
        if r.None? || cand[i].dist < cand[r.value].dist { r := Some(i); }
      }
    }

    method ReadNeighbours(x: Index, limit: nat, row: seq<nat>)
      requires limit > 0
      modifies this`cand, this`seen
      ensures Abs() == SeeAll(x, limit, old(Abs()), row)
    {
      ghost var s := Abs();
      for j := 0 to |row|
        invariant Abs() == SeeAll(x, limit, s, row[..j])
      {
        assert row[..j + 1][..j] == row[..j];
        var nb := row[j];
        if nb >= |x.rows| || nb in seen { continue; }
        seen := seen + {nb};
        Insert(x, limit, nb);
      }
      assert row[..|row|] == row;
    }

    /** `pqq_beam`. */
    method RunBeam(x: Index, limit: nat, iters: nat)
      requires limit > 0 && Closed(x, Abs())
      modifies this
      ensures Abs() == Beam(x, limit, iters, old(Abs()))
    {
      hide Beam, SeeAll, Pick, Closed;
      ghost var s := Abs();
      while true
        invariant Closed(x, Abs()) && Beam(x, limit, iters, Abs()) == Beam(x, limit, iters, s)
        decreases Nodes(|x.rows|) - expanded
      {
        if iters != 0 && expands >= iters { break; }
        var b := FindNext();
        if b.None? { break; }
        var cur := cand[b.value].id;
        BeamTurn(x, limit, iters, Abs());
        OneNodeLess(x, Abs(), cur);
        expanded := expanded + {cur};
        expands := expands + 1;
        ReadNeighbours(x, limit, x.rows[cur]);
      }
      BeamOver(x, limit, iters, Abs());
    }

    /** The loop of the serial search, which looks for a candidate before it looks at the expansion limit. */
    method RunSerialBeam(x: Index, limit: nat, iters: nat)
      requires limit > 0 && Closed(x, Abs()) && expands == 0
      modifies this
      ensures Abs() == Beam(x, limit, iters, old(Abs()))
    {
      hide Beam, SeeAll, Pick, Closed;
      ghost var s := Abs();
      var done := 0;
      while true
        invariant done == expands && Closed(x, Abs()) && Beam(x, limit, iters, Abs()) == Beam(x, limit, iters, s)
        decreases Nodes(|x.rows|) - expanded
      {
        var b := FindNext();
        if b.None? { break; }
        if iters != 0 && done >= iters { break; }
        var cur := cand[b.value].id;
        BeamTurn(x, limit, iters, Abs());
        OneNodeLess(x, Abs(), cur);
        expanded := expanded + {cur};
        expands := expands + 1;
        done := done + 1;
        ReadNeighbours(x, limit, x.rows[cur]);
      }
      BeamOver(x, limit, iters, Abs());
    }

    /**
     `pqq_rank`: replace each PQ distance by the full-precision one, stopping
     where a vector cannot be read.  `got[i]` is what reading and scoring
     candidate `i` yields; an earlier attempt may have left any distances.
     */
    method Rank(got: seq<Option<real>>) returns (ok: bool)
      requires |got| == |cand|
      modifies this`cand
      ensures |cand| == |got| && Ids(cand) == Ids(old(cand))
      ensures ok <==> forall i :: 0 <= i < |got| ==> got[i].Some?
      ensures ok ==> forall i :: 0 <= i < |cand| ==> cand[i].dist == got[i].value
      ensures !ok ==> exists j :: HalfRanked(old(cand), cand, got, j)
      ensures cand == Ranked(old(cand), got)
    {
      for i := 0 to |got|
        invariant |cand| == |got|
        invariant forall j :: 0 <= j < i ==> got[j].Some? && cand[j] == Cand(got[j].value, old(cand)[j].id)
        invariant forall j :: i <= j < |cand| ==> cand[j] == old(cand)[j]
      {
        if got[i].None? {
          assert HalfRanked(old(cand), cand, got, i);
          ghost var full := Ranked(old(cand), got);
          assert forall j :: 0 <= j < |cand| ==> full[j] == cand[j];
          return false;
        }
        cand := cand[i := cand[i].(dist := got[i].value)];
      }
      return true;
    }

    /** `pqq_finish`: sort by distance and keep the first k ids. */
    method Finish(k: nat, ghost score: seq<real>) returns (out: seq<nat>)
      requires DistinctIds(cand) && forall i :: 0 <= i < |cand| ==> cand[i].id < |score| && cand[i].dist == score[cand[i].id]
      modifies this`cand
      ensures KPrefix(score, Ids(old(cand)), k, out)
      ensures multiset(cand) == multiset(old(cand)) && SortedByDist(cand)
    {
      ghost var before := cand;
      cand := Sort(cand);
      SortedIsPrefix(score, before, cand, k);
      out := Ids(cand[..if k < |cand| then k else |cand|]);
    }
  }

  /** Insertion of one candidate into a sorted list. */
  function Put(sorted: seq<Cand>, c: Cand): (r: seq<Cand>)
    requires SortedByDist(sorted)
    ensures SortedByDist(r) && multiset(r) == multiset(sorted) + multiset{c}
  {
    if sorted == [] || sorted[|sorted| - 1].dist <= c.dist then sorted + [c]
    else
      var last := sorted[|sorted| - 1];
      var init := sorted[..|sorted| - 1];
      assert sorted == init + [last];
      var r := Put(init, c);
      PutBound(r, init, c, last);
      assert multiset(r + [last]) == multiset(r) + multiset{last};
      r + [last]
  }

  lemma PutBound(r: seq<Cand>, sorted: seq<Cand>, c: Cand, last: Cand)
    requires multiset(r) == multiset(sorted) + multiset{c}
    requires c.dist < last.dist && forall i :: 0 <= i < |sorted| ==> sorted[i].dist <= last.dist
    ensures forall i :: 0 <= i < |r| ==> r[i].dist <= last.dist
  {
    forall i | 0 <= i < |r| ensures r[i].dist <= last.dist {
      assert r[i] in multiset(r);
    }
  }

  /** Stands for the library sort: any order of ties is one of its results. */
  method Sort(cand: seq<Cand>) returns (r: seq<Cand>)
    ensures SortedByDist(r) && multiset(r) == multiset(cand)
  {
    r := [];
    for i := 0 to |cand|
      invariant SortedByDist(r) && multiset(r) == multiset(cand[..i])
    {
      assert cand[..i + 1] == cand[..i] + [cand[i]];
      r := Put(r, cand[i]);
    }
    assert cand[..|cand|] == cand;
  }

  // ------------------------------------------------------------ renumbered answers

  /** Ids read back through `newToOld`. */
  function Back(out: seq<nat>, newToOld: seq<nat>): (r: seq<nat>)
    requires forall i :: 0 <= i < |out| ==> out[i] < |newToOld|
  {
    seq(|out|, i requires 0 <= i < |out| => newToOld[out[i]])
  }

  /** An answer over renumbered ids and records is an answer over the old ones, read back, and the other way round. */
  lemma BackIsAnswer(score: seq<real>, ids: seq<nat>, newToOld: seq<nat>, oldToNew: seq<nat>, k: nat, out: seq<nat>)
    requires Renumbering(newToOld, oldToNew) && |score| == |newToOld|
    requires forall i :: 0 <= i < |ids| ==> ids[i] < |newToOld|
    requires forall i :: 0 <= i < |out| ==> out[i] < |newToOld|
    ensures KPrefix(Permute(score, newToOld), ids, k, out) <==> KPrefix(score, Back(ids, newToOld), k, Back(out, newToOld))
  {
    var old_, new_ := Back(out, newToOld), Permute(score, newToOld);
    var oids := Back(ids, newToOld);
    forall a: nat | a < |newToOld| ensures (a in out <==> newToOld[a] in old_) && (a in ids <==> newToOld[a] in oids) {
      BackMember(out, newToOld, oldToNew, a);
      BackMember(ids, newToOld, oldToNew, a);
    }
    if KPrefix(new_, ids, k, out) { BackForth(score, ids, newToOld, oldToNew, k, out); }
    if KPrefix(score, oids, k, old_) { BackBack(score, ids, newToOld, oldToNew, k, out); }
  }

  lemma BackMember(out: seq<nat>, newToOld: seq<nat>, oldToNew: seq<nat>, a: nat)
    requires Renumbering(newToOld, oldToNew) && a < |newToOld|
    requires forall i :: 0 <= i < |out| ==> out[i] < |newToOld|
    ensures a in out <==> newToOld[a] in Back(out, newToOld)
  {
    if a in out {
      var i :| 0 <= i < |out| && out[i] == a;
      assert Back(out, newToOld)[i] == newToOld[a];
    }
    if newToOld[a] in Back(out, newToOld) {
      var i :| 0 <= i < |out| && Back(out, newToOld)[i] == newToOld[a];
      assert oldToNew[newToOld[out[i]]] == out[i];
    }
  }

  lemma BackForth(score: seq<real>, ids: seq<nat>, newToOld: seq<nat>, oldToNew: seq<nat>, k: nat, out: seq<nat>)
    requires Renumbering(newToOld, oldToNew) && |score| == |newToOld|
    requires forall i :: 0 <= i < |ids| ==> ids[i] < |newToOld|
    requires forall i :: 0 <= i < |out| ==> out[i] < |newToOld|
    requires KPrefix(Permute(score, newToOld), ids, k, out)
    ensures KPrefix(score, Back(ids, newToOld), k, Back(out, newToOld))
  {
    var old_, oids := Back(out, newToOld), Back(ids, newToOld);
    forall i | 0 <= i < |old_| ensures old_[i] in oids { BackMember(ids, newToOld, oldToNew, out[i]); }
    forall i, j | 0 <= i < j < |old_| ensures old_[i] != old_[j] {
      assert oldToNew[newToOld[out[i]]] == out[i] && oldToNew[newToOld[out[j]]] == out[j];
    }
    forall i, j | 0 <= i < j < |old_| ensures score[old_[i]] <= score[old_[j]] {
      assert Permute(score, newToOld)[out[i]] <= Permute(score, newToOld)[out[j]];
    }
    forall i, id | 0 <= i < |old_| && id in oids && id !in old_ ensures score[old_[i]] <= score[id] {
      var j :| 0 <= j < |oids| && oids[j] == id;
      BackMember(out, newToOld, oldToNew, ids[j]);
      assert Permute(score, newToOld)[out[i]] <= Permute(score, newToOld)[ids[j]];
    }
  }

  lemma BackBack(score: seq<real>, ids: seq<nat>, newToOld: seq<nat>, oldToNew: seq<nat>, k: nat, out: seq<nat>)
    requires Renumbering(newToOld, oldToNew) && |score| == |newToOld|
    requires forall i :: 0 <= i < |ids| ==> ids[i] < |newToOld|
    requires forall i :: 0 <= i < |out| ==> out[i] < |newToOld|
    requires KPrefix(score, Back(ids, newToOld), k, Back(out, newToOld))
    ensures KPrefix(Permute(score, newToOld), ids, k, out)
  {
    var old_, new_ := Back(out, newToOld), Permute(score, newToOld);
    forall i | 0 <= i < |out| ensures out[i] in ids {
      BackMember(ids, newToOld, oldToNew, out[i]);
      assert old_[i] in Back(ids, newToOld);
    }
    forall i, j | 0 <= i < j < |out| ensures out[i] != out[j] && new_[out[i]] <= new_[out[j]] {
      assert old_[i] != old_[j] && score[old_[i]] <= score[old_[j]];
    }
    forall i, id | 0 <= i < |out| && id in ids && id !in out ensures new_[out[i]] <= new_[id] {
      var j :| 0 <= j < |ids| && ids[j] == id;
      BackMember(ids, newToOld, oldToNew, id);
      BackMember(out, newToOld, oldToNew, id);
      assert score[old_[i]] <= score[newToOld[id]];
    }
  }

  /**
   End to end: on the renumbered graph, codes and vectors, `out` answers a
   query exactly when `out` read back through the map answers it on the
   original.
   */
  lemma RelabelledAnswer(x: Index, score: seq<real>, newToOld: seq<nat>, oldToNew: seq<nat>,
                         limit: nat, iters: nat, entry: nat, inside: set<nat>, k: nat, out: seq<nat>)
    requires limit > 0 && Renumbering(newToOld, oldToNew) && |newToOld| == |x.rows| == |x.pq| == |score| && entry < |x.rows|
    requires (entry in inside && Enclosed(x.rows, inside)) || oldToNew[entry] == 0
    requires forall i :: 0 <= i < |out| ==> out[i] < |newToOld|
    requires Closed(x, Init(x, limit, entry))
    ensures Closed(RemapIndex(x, newToOld, oldToNew), Init(RemapIndex(x, newToOld, oldToNew), limit, oldToNew[entry]))
    ensures var y := RemapIndex(x, newToOld, oldToNew);
      var s := Beam(x, limit, iters, Init(x, limit, entry));
      var t := Beam(y, limit, iters, Init(y, limit, oldToNew[entry]));
      && (forall i :: 0 <= i < |Ids(s.cand)| ==> Ids(s.cand)[i] < |score|)
      && (forall i :: 0 <= i < |Ids(t.cand)| ==> Ids(t.cand)[i] < |score|)
      && (KPrefix(Permute(score, newToOld), Ids(t.cand), k, out) <==> KPrefix(score, Ids(s.cand), k, Back(out, newToOld)))
  {
    RelabelledBeam(x, newToOld, oldToNew, limit, iters, entry, inside);
    var y := RemapIndex(x, newToOld, oldToNew);
    var s := Beam(x, limit, iters, Init(x, limit, entry));
    var t := Beam(y, limit, iters, Init(y, limit, oldToNew[entry]));
    assert Back(Ids(t.cand), newToOld) == Ids(s.cand);
    BackIsAnswer(score, Ids(t.cand), newToOld, oldToNew, k, out);
  }
}
