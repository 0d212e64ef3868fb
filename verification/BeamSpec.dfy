/**
 The PQ beam of serving/search_beam.cpp on values: `pqq_insert`, the pick of
 the closest unexpanded candidate, expansion and the beam loop.  Distances are
 reals; NaN and rounding are not modelled.
 */
module BeamSpec {
  import opened Common

  datatype Cand = Cand(dist: real, id: nat)

  /** What the beam reads: the rows it is allowed to look at, and the PQ distance of every id to the query. */
  datatype Index = Index(rows: seq<seq<nat>>, pq: seq<real>)

  datatype State = State(cand: seq<Cand>, seen: set<nat>, expanded: set<nat>, expands: nat)

  /** `max_element`: the first of the largest. */
  function Worst(cand: seq<Cand>): (w: nat)
    requires cand != []
    ensures w < |cand|
    ensures forall k :: 0 <= k < |cand| ==> cand[k].dist <= cand[w].dist
    ensures forall k :: 0 <= k < w ==> cand[k].dist < cand[w].dist
  {
    if |cand| == 1 then 0
    else
      var w := Worst(cand[..|cand| - 1]);
      assert cand[..|cand| - 1][w] == cand[w];
      if cand[w].dist < cand[|cand| - 1].dist then |cand| - 1 else w
  }

  function InsertCand(cand: seq<Cand>, limit: nat, c: Cand): seq<Cand>
    requires limit > 0
  {
    if |cand| >= limit then
      var w := Worst(cand);
      if c.dist >= cand[w].dist then cand else cand[w := c]
    else cand + [c]
  }

  function Insert(x: Index, cand: seq<Cand>, limit: nat, id: nat): seq<Cand>
    requires limit > 0
  {
    if id >= |x.pq| then cand else InsertCand(cand, limit, Cand(x.pq[id], id))
  }

  /** The first of the closest candidates not yet expanded, among the first `n`. */
  function Pick(cand: seq<Cand>, expanded: set<nat>, n: nat): (r: Option<nat>)
    requires n <= |cand|
    ensures r.Some? ==> r.value < n && cand[r.value].id !in expanded
    ensures r.Some? ==> forall k :: 0 <= k < n && cand[k].id !in expanded ==> cand[r.value].dist <= cand[k].dist
    ensures r.Some? ==> forall k :: 0 <= k < r.value && cand[k].id !in expanded ==> cand[r.value].dist < cand[k].dist
    ensures r.None? ==> forall k :: 0 <= k < n ==> cand[k].id in expanded
  {
    if n == 0 then None
    else
      var r := Pick(cand, expanded, n - 1);
      if cand[n - 1].id in expanded then r
      else if r.None? || cand[n - 1].dist < cand[r.value].dist then Some(n - 1)
      else r
  }

  /** One neighbour of an expanded node. */
  function See(x: Index, limit: nat, s: State, nb: nat): State
    requires limit > 0
  {
    if nb >= |x.rows| || nb in s.seen then s
    else s.(seen := s.seen + {nb}, cand := Insert(x, s.cand, limit, nb))
  }

  function SeeAll(x: Index, limit: nat, s: State, row: seq<nat>): State
    requires limit > 0
  {
    if row == [] then s else See(x, limit, SeeAll(x, limit, s, row[..|row| - 1]), row[|row| - 1])
  }

  function Expand(x: Index, limit: nat, s: State, cur: nat): State
    requires limit > 0 && cur < |x.rows|
  {
    SeeAll(x, limit, s.(expanded := s.expanded + {cur}, expands := s.expands + 1), x.rows[cur])
  }

  function Init(x: Index, limit: nat, entry: nat): State
    requires limit > 0
  {
    State(Insert(x, [], limit, entry), {entry}, {}, 0)
  }

  /** Candidates are nodes. */
  ghost predicate Closed(x: Index, s: State) {
    && (forall k :: 0 <= k < |s.cand| ==> s.cand[k].id < |x.rows|)
    && (forall id :: id in s.expanded ==> id < |x.rows|)
  }

  ghost function Nodes(n: nat): (r: set<nat>)
    ensures forall i: nat :: i in r <==> i < n
  {
    if n == 0 then {} else Nodes(n - 1) + {n - 1}
  }

  lemma {:induction false} SeeAllClosed(x: Index, limit: nat, s: State, row: seq<nat>)
    requires limit > 0 && Closed(x, s)
    ensures Closed(x, SeeAll(x, limit, s, row)) && SeeAll(x, limit, s, row).expanded == s.expanded
    ensures SeeAll(x, limit, s, row).expands == s.expands
  {
    if row != [] { SeeAllClosed(x, limit, s, row[..|row| - 1]); }
  }

  /** The loop: expand the closest unexpanded candidate until none is left or `iters` expansions are done. */
  function Beam(x: Index, limit: nat, iters: nat, s: State): State
    requires limit > 0 && Closed(x, s)
    decreases Nodes(|x.rows|) - s.expanded
  {
    if iters != 0 && s.expands >= iters then s
    else
      match Pick(s.cand, s.expanded, |s.cand|)
      case None => s
      case Some(b) =>
        var cur := s.cand[b].id;
        SeeAllClosed(x, limit, s.(expanded := s.expanded + {cur}, expands := s.expands + 1), x.rows[cur]);
        assert cur in Nodes(|x.rows|) - s.expanded;
        Beam(x, limit, iters, Expand(x, limit, s, cur))
  }
}
