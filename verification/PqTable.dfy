/**
 PQ codes brought into search-id order (serving/pq_table.hpp): the rows are
 permuted in place, cycle by cycle, with one spare row.  The array holds a row
 of code bytes at each index, so copying a row is one assignment.
 */
module PqTables {
  import opened Common
  import opened Counting
  import opened BitSets
  import opened CodeWalks
  import opened Relabel

  type Row = seq<bv8>

  /** `path` follows `p` from `start`, never repeating. */
  ghost predicate Trail(p: seq<nat>, start: nat, path: seq<nat>) {
    && path != [] && path[0] == start && Distinct(path)
    && (forall t :: 0 <= t < |path| ==> path[t] < |p|)
    && (forall t :: 0 <= t < |path| - 1 ==> p[path[t]] == path[t + 1])
  }

  ghost function Elems(path: seq<nat>): (r: set<nat>)
    ensures forall x :: x in r <==> x in path
  {
    set x | x in path
  }

  /** The path is the walk from its first row, so far as it has been followed before its first stop. */
  lemma TrailStep(p: seq<nat>, done: set<nat>, path: seq<nat>, f: nat)
    requires Sealed(p, done) && path != [] && Trail(p, path[0], path) && path[0] !in done
    requires FirstStop(p, path[0], f) && |path| < f
    ensures var src := p[path[|path| - 1]]; src < |p| && src !in done && src !in path && Trail(p, path[0], path + [src])
  {
    var src := p[path[|path| - 1]];
    TrailWalks(p, path);
    assert src == Walk(p, path[0], |path|);
    FreshBefore(p, done, path[0], f, |path|);
  }

  lemma TrailWalks(p: seq<nat>, path: seq<nat>)
    requires path != [] && Trail(p, path[0], path)
    ensures forall t :: 0 <= t < |path| ==> path[t] == Walk(p, path[0], t)
    ensures p[path[|path| - 1]] == Walk(p, path[0], |path|)
  {
    if |path| > 1 {
      var rest := path[..|path| - 1];
      TrailWalks(p, rest);
      assert forall t :: 0 <= t < |rest| ==> path[t] == rest[t];
    }
  }

  /** The rows of a closed path are the rows the walk has traced. */
  lemma PathTraced(p: seq<nat>, done: set<nat>, path: seq<nat>)
    requires path != [] && Trail(p, path[0], path)
    ensures Traced(p, path[0], done, |path|) == done + Elems(path)
  {
    TrailWalks(p, path);
    var traced := set j: nat | j < |path| :: Walk(p, path[0], j);
    forall x ensures x in traced <==> x in Elems(path) {
      if x in traced { var j: nat :| j < |path| && Walk(p, path[0], j) == x; assert path[j] == x; }
      if x in Elems(path) { var j: nat :| j < |path| && path[j] == x; assert Walk(p, path[0], j) == x; }
    }
    assert traced == Elems(path);
  }

  /** Marked rows hold what the map names for them; the others are as they came. */
  ghost predicate Placed(p: seq<nat>, before: seq<Row>, now: seq<Row>, done: set<nat>) {
    && |now| == |p| == |before|
    && (forall j :: j in done ==> j < |p| && p[j] < |p| && now[j] == before[p[j]])
    && (forall j :: 0 <= j < |p| && j !in done ==> now[j] == before[j])
  }

  lemma PutStep(p: seq<nat>, before: seq<Row>, now: seq<Row>, done: set<nat>, cur: nat, row: Row)
    requires Placed(p, before, now, done) && cur < |p| && cur !in done && p[cur] < |p| && row == before[p[cur]]
    ensures Placed(p, before, now[cur := row], done + {cur})
  {}

  /** Every row below `i` is marked. */
  ghost predicate MarkedBelow(i: nat, marks: set<nat>) {
    forall j: nat :: j < i ==> j in marks
  }

  lemma Untouched(p: seq<nat>, before: seq<Row>)
    requires |before| == |p|
    ensures Placed(p, before, before, {}) && Passed(p, 0, {}) && MarkedBelow(0, {})
  {}

  lemma MarkMore(i: nat, marks: set<nat>, more: set<nat>)
    requires MarkedBelow(i, marks) && marks <= more && i in more
    ensures MarkedBelow(i + 1, more)
  {}

  lemma AllPlaced(p: seq<nat>, before: seq<Row>, now: seq<Row>, done: set<nat>)
    requires Placed(p, before, now, done) && MarkedBelow(|p|, done)
    ensures forall j :: 0 <= j < |p| ==> p[j] < |p|
    ensures now == Permute(before, p)
  {
    assert forall j :: 0 <= j < |p| ==> j in done && now[j] == before[p[j]];
  }

  /** A walk under way: every row on the path but the last has been filled and marked. */
  ghost predicate Moving(p: seq<nat>, before: seq<Row>, now: seq<Row>, done: set<nat>, path: seq<nat>)
  {
    && path != [] && Trail(p, path[0], path) && |now| == |p|
    && (forall t :: 0 <= t < |path| ==> path[t] !in done)
    && Placed(p, before, now, done + Elems(path[..|path| - 1]))
  }

  lemma MoveStart(p: seq<nat>, before: seq<Row>, now: seq<Row>, done: set<nat>, i: nat)
    requires Placed(p, before, now, done) && i < |p| && i !in done
    ensures Moving(p, before, now, done, [i]) && |before| == |p| == |now| && now[i] == before[i]
  {
    assert done + Elems([i][..0]) == done;
  }

  /** The row at the end of the path is not on the path before. */
  lemma LastFresh(p: seq<nat>, path: seq<nat>)
    requires path != [] && Trail(p, path[0], path)
    ensures path[|path| - 1] < |p| && path[|path| - 1] !in Elems(path[..|path| - 1])
    ensures Elems(path[..|path| - 1]) + {path[|path| - 1]} == Elems(path)
    ensures |path| <= |p|
  {
    DistinctBound(path, |p|);
    var rest := path[..|path| - 1];
    assert path == rest + [path[|path| - 1]];
    assert forall x :: x in path <==> x in rest || x == path[|path| - 1];
  }

  lemma MoveStep(p: seq<nat>, before: seq<Row>, now: seq<Row>, done: set<nat>, path: seq<nat>, f: nat)
    requires Sealed(p, done) && Moving(p, before, now, done, path)
    requires FirstStop(p, path[0], f) && |path| < f
    ensures p[path[|path| - 1]] < |p|
    ensures var cur, src := path[|path| - 1], p[path[|path| - 1]];
      cur < |now| && src < |now| && Moving(p, before, now[cur := now[src]], done, path + [src])
  {
    hide Placed;
    LastFresh(p, path);
    var cur, src := path[|path| - 1], p[path[|path| - 1]];
    var moved := Elems(path[..|path| - 1]);
    TrailStep(p, done, path, f);
    assert src !in moved && (path + [src])[..|path|] == path;
    assert now[src] == before[src] && |before| == |p| by { PlacedOutside(p, before, now, done + moved, src); }
    PutStep(p, before, now, done + moved, cur, now[src]);
    assert done + moved + {cur} == done + Elems(path);
  }

  lemma MovingTrail(p: seq<nat>, before: seq<Row>, now: seq<Row>, done: set<nat>, path: seq<nat>)
    requires Moving(p, before, now, done, path)
    ensures path != [] && Trail(p, path[0], path)
  {}

  lemma PlacedOutside(p: seq<nat>, before: seq<Row>, now: seq<Row>, done: set<nat>, j: nat)
    requires Placed(p, before, now, done) && j < |p| && j !in done
    ensures |before| == |now| == |p| && now[j] == before[j]
  {}

  lemma MoveClose(p: seq<nat>, before: seq<Row>, now: seq<Row>, done: set<nat>, path: seq<nat>)
    requires Moving(p, before, now, done, path) && p[path[|path| - 1]] == path[0] && |before| == |p|
    ensures path[0] < |p| && path[|path| - 1] < |now|
    ensures Placed(p, before, now[path[|path| - 1] := before[path[0]]], done + Elems(path))
  {
    LastFresh(p, path);
    var cur := path[|path| - 1];
    var moved := Elems(path[..|path| - 1]);
    PutStep(p, before, now, done + moved, cur, before[path[0]]);
    assert done + moved + {cur} == done + Elems(path);
  }

  /** When the cycle from an unmarked row stops. */
  lemma CycleTime(p: seq<nat>, i: nat, done: set<nat>) returns (f: nat)
    requires Ending(p) && Passed(p, i, done) && i < |p|
    ensures FirstStop(p, i, f) && f > 0 && Sealed(p, done)
  {
    if !Returns(p, i) {
      var j: nat :| j <= i && Leaves(p, j);
      NotBoth(p, j);
    }
    f := FirstOf(p, i);
  }

  lemma Opened(p: seq<nat>, i: nat, done: set<nat>)
    requires i < |p| && i !in done
    ensures Run(p, Turn(i, done), 1) == Inside(i, i, done)
  {
    assert Run(p, Turn(i, done), 1) == Step(p, Run(p, Turn(i, done), 0));
  }

  lemma OverMarked(p: seq<nat>, i: nat, marks: set<nat>)
    requires Passed(p, i, marks) && i < |p| && i in marks
    ensures Run(p, Turn(i, marks), 1) == Turn(i + 1, marks) && Passed(p, i + 1, marks)
  {
    assert Run(p, Turn(i, marks), 1) == Step(p, Run(p, Turn(i, marks), 0));
  }

  lemma InElems(i: nat, cycle: seq<nat>)
    ensures i in cycle ==> i in Elems(cycle)
  {}

  lemma NoStep(p: seq<nat>, s: Loop)
    ensures Run(p, s, 0) == s
  {}

  lemma HaltedAt(p: seq<nat>, k: nat)
    requires Run(p, Turn(0, {}), k) == Halted(false)
    ensures Halts(p, Turn(0, {}), false)
  {}

  lemma LastTurn(p: seq<nat>, k: nat, marks: set<nat>)
    requires Run(p, Turn(0, {}), k) == Turn(|p|, marks)
    ensures Halts(p, Turn(0, {}), true)
  {
    assert Run(p, Turn(0, {}), k + 1) == Halted(true);
  }

  lemma NextStep(p: seq<nat>, i: nat, done: set<nat>, cur: nat, marks: set<nat>, k: nat)
    requires Run(p, Turn(i, done), k) == Inside(i, cur, marks) && cur < |p|
    ensures Run(p, Turn(i, done), k + 1) ==
            if p[cur] >= |p| then Halted(false)
            else if p[cur] == i then Turn(i + 1, marks + {cur})
            else Inside(i, p[cur], marks + {cur})
  {}

  lemma NoElems(path: seq<nat>)
    ensures Elems(path[..0]) == {}
  {}

  /** A walk that is back stops there, so its rows are a cycle that has been passed. */
  lemma CycleDone(p: seq<nat>, i: nat, done: set<nat>, path: seq<nat>, f: nat)
    requires Passed(p, i, done) && i !in done && i < |p| && FirstStop(p, i, f)
    requires path != [] && Trail(p, i, path) && |path| <= f && p[path[|path| - 1]] == i
    ensures Passed(p, i + 1, done + Elems(path))
  {
    TrailWalks(p, path);
    assert BackAt(p, i, |path|) && Stops(p, i, |path|);
    PathTraced(p, done, path);
    PassCycle(p, i, done, f);
  }

  lemma NotYet(p: seq<nat>, path: seq<nat>, f: nat)
    requires path != [] && Trail(p, path[0], path) && |path| <= f && FirstStop(p, path[0], f)
    requires p[path[|path| - 1]] < |p| && p[path[|path| - 1]] != path[0]
    ensures |path| < f
  {
    TrailWalks(p, path);
  }

  ghost predicate OutOfRange(p: seq<nat>) {
    exists j :: 0 <= j < |p| && p[j] >= |p|
  }

  class PqTable {
    const n: nat
    const codes: array<Row>

    constructor (rows: seq<Row>)
      ensures n == |rows| && fresh(codes) && codes[..] == rows && codes.Length == n
    {
      n := |rows|;
      codes := new Row[|rows|](i requires 0 <= i < |rows| => rows[i]);
    }

    /**
     One cycle, from its first unmarked row, with that row set aside.  It ends,
     as the walk is back or out at some time, and takes the loop's steps.
     */
    method RunCycle(p: seq<nat>, seen: BitSet, i: nat, ghost before: seq<Row>) returns (ok: bool, ghost cycle: seq<nat>)
      requires codes.Length == n && seen.Valid() && seen.size == n && i < n && i !in seen.Marked()
      requires seen.bytes as object != codes as object
      requires Ending(p) && Placed(p, before, codes[..], seen.Marked()) && Passed(p, i, seen.Marked())
      modifies codes, seen.bytes
      ensures ok ==> i in cycle && seen.Marked() == old(seen.Marked()) + Elems(cycle)
      ensures ok ==> Placed(p, before, codes[..], seen.Marked()) && Passed(p, i + 1, seen.Marked())
      ensures !ok ==> OutOfRange(p)
      ensures Run(p, Turn(i, old(seen.Marked())), |cycle| + 1) == if ok then Turn(i + 1, seen.Marked()) else Halted(false)
    {
      ghost var done := seen.Marked();
      assert |p| == n;
      MoveStart(p, before, codes[..], done, i);
      ghost var f := CycleTime(p, i, done);
      Opened(p, i, done);
      hide Ending, Sealed, Passed, Placed, Moving, FirstStop, Run, Elems, BitSet.Marked;
      var tmp := codes[i];
      var cur := i;
      ghost var path: seq<nat> := [i];
      assert done + Elems(path[..0]) == done by { NoElems(path); }
      while true
        invariant path != [] && path[0] == i && path[|path| - 1] == cur && cur < n && |path| <= f
        invariant Moving(p, before, codes[..], done, path)
        invariant seen.Marked() == done + Elems(path[..|path| - 1])
        invariant Run(p, Turn(i, done), |path|) == Inside(i, cur, seen.Marked())
        decreases f - |path|
      {
        MovingTrail(p, before, codes[..], done, path);
        LastFresh(p, path);
        ghost var now := codes[..];
        ghost var marks := seen.Marked();
        seen.Mark(cur);
        assert codes[..] == now;
        assert seen.Marked() == done + Elems(path);
        var src := p[cur];
        NextStep(p, i, done, cur, marks, |path|);
        if src >= n { return false, path; }
        if src == i {
          CycleDone(p, i, done, path, f);
          MoveClose(p, before, now, done, path);
          codes[cur] := tmp;
          assert codes[..] == now[cur := tmp];
          return true, path;
        }
        NotYet(p, path, f);
        MoveStep(p, before, now, done, path, f);
        codes[cur] := codes[src];
        assert codes[..] == now[cur := now[src]];
        assert (path + [src])[..|path|] == path;
        path := path + [src];
        cur := src;
      }
    }

    /** The rows below `i` are in place and marked, and nothing but whole cycles is. */
    ghost predicate Ready(p: seq<nat>, seen: BitSet, i: nat, before: seq<Row>)
      reads codes, seen.bytes
    {
      && codes.Length == n == |p| && seen.Valid() && seen.size == n && Ending(p)
      && Placed(p, before, codes[..], seen.Marked()) && Passed(p, i, seen.Marked()) && MarkedBelow(i, seen.Marked())
    }

    lemma AllReady(p: seq<nat>, seen: BitSet, before: seq<Row>)
      requires Ready(p, seen, n, before)
      ensures codes.Length == |p| == n && (forall i :: 0 <= i < n ==> p[i] < n) && |before| == n
      ensures codes[..] == Permute(before, p)
    {
      AllPlaced(p, before, codes[..], seen.Marked());
    }

    /** One turn of the walk: a marked row is passed over, an unmarked one opens a cycle. */
    method VisitRow(p: seq<nat>, seen: BitSet, i: nat, ghost before: seq<Row>) returns (ok: bool, ghost k: nat)
      requires seen.bytes as object != codes as object && i < n && Ready(p, seen, i, before)
      modifies codes, seen.bytes
      ensures ok ==> Ready(p, seen, i + 1, before)
      ensures !ok ==> OutOfRange(p)
      ensures seen.Valid() && Run(p, Turn(i, old(seen.Marked())), k) == if ok then Turn(i + 1, seen.Marked()) else Halted(false)
    {
      hide *;
      ReadyParts(p, seen, i, before);
      ghost var marks := seen.Marked();
      var marked := seen.Test(i);
      if marked {
        OverMarked(p, i, marks);
        MarkMore(i, marks, marks);
        MakeReady(p, seen, i + 1, before);
        return true, 1;
      }
      ghost var cycle;
      ok, cycle := RunCycle(p, seen, i, before);
      InElems(i, cycle);
      if ok {
        MarkMore(i, marks, seen.Marked());
        MakeReady(p, seen, i + 1, before);
      }
      k := |cycle| + 1;
    }

    lemma ReadyParts(p: seq<nat>, seen: BitSet, i: nat, before: seq<Row>)
      requires Ready(p, seen, i, before)
      ensures codes.Length == n == |p| && seen.Valid() && seen.size == n && Ending(p)
      ensures Placed(p, before, codes[..], seen.Marked()) && Passed(p, i, seen.Marked()) && MarkedBelow(i, seen.Marked())
    {}

    lemma MakeReady(p: seq<nat>, seen: BitSet, i: nat, before: seq<Row>)
      requires codes.Length == n == |p| && seen.Valid() && seen.size == n && Ending(p)
      requires Placed(p, before, codes[..], seen.Marked()) && Passed(p, i, seen.Marked()) && MarkedBelow(i, seen.Marked())
      ensures Ready(p, seen, i, before)
    {}

    /** The walk over all rows, one cycle at a time: it takes the loop's steps to their end. */
    method PermuteInPlace(p: seq<nat>) returns (ok: bool)
      requires codes.Length == n == |p| && Ending(p)
      modifies codes
      ensures Halts(p, Turn(0, {}), ok)
      ensures ok <==> IsPermutation(p)
      ensures !ok ==> OutOfRange(p)
      ensures ok ==> codes[..] == Permute(old(codes[..]), p)
    {
      hide *;
      var seen := new BitSet(n);
      ghost var before := codes[..];
      Untouched(p, before);
      LoopOutcome(p);
      OneResult(p, Turn(0, {}));
      ghost var k: nat := 0;
      MakeReady(p, seen, 0, before);
      NoStep(p, Turn(0, {}));
      for i := 0 to n
        invariant seen.Valid() && fresh(seen.bytes) && Ready(p, seen, i, before)
        invariant Run(p, Turn(0, {}), k) == Turn(i, seen.Marked())
      {
        var closed: bool;
        ghost var more: nat;
        closed, more := VisitRow(p, seen, i, before);
        RunAdd(p, Turn(0, {}), k, more);
        k := k + more;
        if !closed {
          HaltedAt(p, k);
          return false;
        }
      }
      AllReady(p, seen, before);
      LastTurn(p, k, seen.Marked());
      return true;
    }

    /** `load_codes` after the read: permute when a map of the right length is given. */
    method LoadCodes(newToOld: Option<seq<nat>>) returns (ok: bool)
      requires codes.Length == n && (newToOld.Some? && |newToOld.value| == n ==> Ending(newToOld.value))
      modifies codes
      ensures newToOld.None? || |newToOld.value| != n ==> ok && codes[..] == old(codes[..])
      ensures newToOld.Some? && |newToOld.value| == n ==>
        && (ok <==> IsPermutation(newToOld.value))
        && (ok ==> codes[..] == Permute(old(codes[..]), newToOld.value))
    {
      if newToOld.None? || |newToOld.value| != n { return true; }
      ok := PermuteInPlace(newToOld.value);
    }
  }

  // ------------------------------------------------------------ distances

  predicate Tables(lut: seq<seq<real>>) {
    forall c :: 0 <= c < |lut| ==> |lut[c]| == 256
  }

  /** The distance of a code row: one table entry per chunk. */
  function RowDist(row: Row, lut: seq<seq<real>>): real
    requires |row| <= |lut| && Tables(lut)
  {
    if row == [] then 0.0 else RowDist(row[..|row| - 1], lut) + lut[|row| - 1][row[|row| - 1] as nat]
  }

  method Dist(row: Row, lut: seq<seq<real>>) returns (d: real)
    requires |row| <= |lut| && Tables(lut)
    ensures d == RowDist(row, lut)
  {
    d := 0.0;
    for ch := 0 to |row|
      invariant d == RowDist(row[..ch], lut)
    {
      assert row[..ch + 1][..ch] == row[..ch];
      d := d + lut[ch][row[ch] as nat];
    }
    assert row[..|row|] == row;
  }

  /** A row laid on after another, and its tables after theirs: each chunk is looked up in its own table. */
  lemma {:induction false} DistSplit(a: Row, b: Row, l: seq<seq<real>>, m: seq<seq<real>>)
    requires |a| == |l| && |b| == |m| && Tables(l) && Tables(m)
    ensures Tables(l + m) && RowDist(a + b, l + m) == RowDist(a, l) + RowDist(b, m)
  {
    assert forall c :: 0 <= c < |l + m| ==> (l + m)[c] in l || (l + m)[c] in m;
    if b == [] {
      assert a + b == a && l + m == l;
    } else {
      var n := |b| - 1;
      DistSplit(a, b[..n], l, m[..n]);
      assert (a + b)[..|a| + n] == a + b[..n];
      MoreTables(a + b[..n], l + m[..n], l + m);
      MoreTables(b[..n], m[..n], m);
    }
  }

  /** A row of one chunk reads its entry of the one table. */
  lemma OneChunk(code: bv8, table: seq<real>)
    requires |table| == 256
    ensures Tables([table]) && RowDist([code], [table]) == table[code as nat]
  {
    assert [code][..0] == [];
    assert RowDist([code][..0], [table]) == 0.0;
  }

  /** Tables beyond the row's length are not looked at. */
  lemma {:induction false} MoreTables(row: Row, lut: seq<seq<real>>, more: seq<seq<real>>)
    requires |row| <= |lut| && lut <= more && Tables(lut) && Tables(more)
    ensures RowDist(row, more) == RowDist(row, lut)
  {
    if row != [] { MoreTables(row[..|row| - 1], lut, more); }
  }

  // ------------------------------------------------------------ the tables of a query

  function Dot(a: seq<real>, b: seq<real>): real
    requires |a| == |b|
  {
    if a == [] then 0.0 else Dot(a[..|a| - 1], b[..|b| - 1]) + a[|a| - 1] * b[|b| - 1]
  }

  lemma {:induction false} DotJoin(a: seq<real>, b: seq<real>, c: seq<real>, d: seq<real>)
    requires |a| == |b| && |c| == |d|
    ensures Dot(a + c, b + d) == Dot(a, b) + Dot(c, d)
  {
    if c == [] {
      assert a + c == a && b + d == b;
    } else {
      var n := |c| - 1;
      DotJoin(a, b, c[..n], d[..n]);
      assert (a + c)[..|a| + n] == a + c[..n] && (b + d)[..|b| + n] == b + d[..n];
    }
  }

  /** `load_pivots`: 256 centroids in every dimension, and a chunk is the dimensions from its offset to the next. */
  ghost predicate Pivots(centers: seq<seq<real>>, off: seq<nat>) {
    && (forall d :: 0 <= d < |centers| ==> |centers[d]| == 256)
    && |off| > 1 && forall c :: 0 <= c < |off| ==> off[c] <= |centers|
  }

  /** The chunks cover every dimension once. */
  ghost predicate Chunked(centers: seq<seq<real>>, off: seq<nat>) {
    && Pivots(centers, off) && off[0] == 0 && off[|off| - 1] == |centers|
    && forall c :: 0 <= c < |off| - 1 ==> off[c] <= off[c + 1]
  }

  /** Coordinate `i` of the centroids in the dimensions from `lo` on, up to `hi`. */
  function Column(centers: seq<seq<real>>, lo: nat, hi: nat, i: nat): (r: seq<real>)
    requires lo <= hi <= |centers| && i < 256 && forall d :: 0 <= d < |centers| ==> |centers[d]| == 256
    ensures |r| == hi - lo
  {
    seq(hi - lo, k requires 0 <= k < hi - lo => centers[lo + k][i])
  }

  /** The table of one chunk: the negated inner product of the query with each centroid, over the chunk's dimensions. */
  ghost predicate Filled(q: seq<real>, centers: seq<seq<real>>, lo: nat, hi: nat, table: seq<real>)
    requires |q| == |centers| && hi <= |centers| && forall d :: 0 <= d < |centers| ==> |centers[d]| == 256
  {
    && |table| == 256
    && forall i :: 0 <= i < 256 ==> table[i] == if lo <= hi then -Dot(q[lo..hi], Column(centers, lo, hi, i)) else 0.0
  }

  ghost predicate FilledAll(q: seq<real>, centers: seq<seq<real>>, off: seq<nat>, lut: seq<seq<real>>)
    requires Pivots(centers, off) && |q| == |centers|
  {
    |lut| == |off| - 1 && forall c :: 0 <= c < |lut| ==> Filled(q, centers, off[c], off[c + 1], lut[c])
  }

  /** One more dimension in a chunk's table. */
  lemma ColumnMore(q: seq<real>, centers: seq<seq<real>>, lo: nat, hi: nat, i: nat)
    requires |q| == |centers| && lo <= hi < |centers| && i < 256 && forall d :: 0 <= d < |centers| ==> |centers[d]| == 256
    ensures Dot(q[lo..hi + 1], Column(centers, lo, hi + 1, i)) == Dot(q[lo..hi], Column(centers, lo, hi, i)) + q[hi] * centers[hi][i]
  {
    assert q[lo..hi + 1] == q[lo..hi] + [q[hi]];
    assert Column(centers, lo, hi + 1, i) == Column(centers, lo, hi, i) + [centers[hi][i]];
    var a, b := q[lo..hi + 1], Column(centers, lo, hi + 1, i);
    assert a[..|a| - 1] == q[lo..hi] && b[..|b| - 1] == Column(centers, lo, hi, i);
  }

  /** A table in the making: the dimensions from `lo` up to `d` are in. */
  ghost predicate Partly(q: seq<real>, centers: seq<seq<real>>, lo: nat, d: nat, table: seq<real>)
    requires |q| == |centers| && lo <= d <= |centers| && forall d :: 0 <= d < |centers| ==> |centers[d]| == 256
  {
    |table| == 256 && forall i :: 0 <= i < 256 ==> table[i] == -Dot(q[lo..d], Column(centers, lo, d, i))
  }

  /** One dimension's share of every entry. */
  function Less(table: seq<real>, qv: real, center: seq<real>): (r: seq<real>)
    requires |table| == |center|
    ensures |r| == |table|
  {
    seq(|table|, i requires 0 <= i < |table| => table[i] - qv * center[i])
  }

  lemma PartlyMore(q: seq<real>, centers: seq<seq<real>>, lo: nat, d: nat, table: seq<real>)
    requires |q| == |centers| && lo <= d < |centers| && (forall d :: 0 <= d < |centers| ==> |centers[d]| == 256)
    requires Partly(q, centers, lo, d, table)
    ensures Partly(q, centers, lo, d + 1, Less(table, q[d], centers[d]))
  {
    hide Dot, Column;
    forall i | 0 <= i < 256 ensures Less(table, q[d], centers[d])[i] == -Dot(q[lo..d + 1], Column(centers, lo, d + 1, i)) {
      ColumnMore(q, centers, lo, d, i);
    }
  }

  method Subtract(chunk: array<real>, qv: real, center: seq<real>)
    requires chunk.Length == |center|
    modifies chunk
    ensures chunk[..] == Less(old(chunk[..]), qv, center)
  {
    ghost var was := chunk[..];
    for i := 0 to chunk.Length
      invariant forall j :: 0 <= j < chunk.Length ==> chunk[j] == if j < i then Less(was, qv, center)[j] else was[j]
    {
      chunk[i] := chunk[i] - qv * center[i];
    }
  }

  /** One chunk of `fill_lut_ip`. */
  method FillChunk(q: seq<real>, centers: seq<seq<real>>, lo: nat, hi: nat) returns (table: seq<real>)
    requires |q| == |centers| && hi <= |centers| && forall d :: 0 <= d < |centers| ==> |centers[d]| == 256
    ensures Filled(q, centers, lo, hi, table)
  {
    var chunk := new real[256](_ => 0.0);
    if lo > hi { return chunk[..]; }
    NoneIn(q, centers, lo, chunk[..]);
    hide Partly, Less;
    for d := lo to hi
      invariant chunk.Length == 256 && Partly(q, centers, lo, d, chunk[..])
    {
      PartlyMore(q, centers, lo, d, chunk[..]);
      Subtract(chunk, q[d], centers[d]);
    }
    AllIn(q, centers, lo, hi, chunk[..]);
    table := chunk[..];
  }

  lemma NoneIn(q: seq<real>, centers: seq<seq<real>>, lo: nat, table: seq<real>)
    requires |q| == |centers| && lo <= |centers| && forall d :: 0 <= d < |centers| ==> |centers[d]| == 256
    requires |table| == 256 && forall i :: 0 <= i < 256 ==> table[i] == 0.0
    ensures Partly(q, centers, lo, lo, table)
  {}

  lemma AllIn(q: seq<real>, centers: seq<seq<real>>, lo: nat, hi: nat, table: seq<real>)
    requires |q| == |centers| && lo <= hi <= |centers| && forall d :: 0 <= d < |centers| ==> |centers[d]| == 256
    requires Partly(q, centers, lo, hi, table)
    ensures Filled(q, centers, lo, hi, table)
  {}

  /** `fill_lut_ip`: chunk by chunk. */
  method FillLut(q: seq<real>, centers: seq<seq<real>>, off: seq<nat>) returns (lut: seq<seq<real>>)
    requires Pivots(centers, off) && |q| == |centers|
    ensures Tables(lut) && FilledAll(q, centers, off, lut)
  {
    hide Filled;
    lut := [];
    for c := 0 to |off| - 1
      invariant |lut| == c && forall b :: 0 <= b < c ==> Filled(q, centers, off[b], off[b + 1], lut[b])
    {
      var table := FillChunk(q, centers, off[c], off[c + 1]);
      lut := lut + [table];
    }
    FilledSizes(q, centers, off, lut);
  }

  lemma FilledSizes(q: seq<real>, centers: seq<seq<real>>, off: seq<nat>, lut: seq<seq<real>>)
    requires Pivots(centers, off) && |q| == |centers| && FilledAll(q, centers, off, lut)
    ensures Tables(lut)
  {
    hide Dot, Column;
    forall c | 0 <= c < |lut| ensures |lut[c]| == 256 { assert Filled(q, centers, off[c], off[c + 1], lut[c]); }
  }

  /** `x` is the vector a code row stands for: in each dimension the coordinate of the centroid its chunk names. */
  ghost predicate Decodes(centers: seq<seq<real>>, off: seq<nat>, row: Row, x: seq<real>)
    requires Pivots(centers, off) && |row| == |off| - 1
  {
    |x| == |centers| && forall c, d :: 0 <= c < |row| && off[c] <= d < off[c + 1] ==> x[d] == centers[d][row[c] as nat]
  }

  /**
   The distance the search sorts by is the negated inner product of the query
   with the vector the code row stands for.
   */
  lemma DistIsInner(q: seq<real>, centers: seq<seq<real>>, off: seq<nat>, lut: seq<seq<real>>, row: Row, x: seq<real>)
    requires Chunked(centers, off) && |q| == |centers| && Tables(lut) && FilledAll(q, centers, off, lut)
    requires |row| == |off| - 1 && Decodes(centers, off, row, x)
    ensures RowDist(row, lut) == -Dot(q, x)
  {
    DistUpTo(q, centers, off, lut, row, x, |row|);
    assert row[..|row|] == row && q[..|q|] == q && x[..|x|] == x;
  }

  lemma {:induction false} DistUpTo(q: seq<real>, centers: seq<seq<real>>, off: seq<nat>, lut: seq<seq<real>>, row: Row, x: seq<real>, c: nat)
    requires Chunked(centers, off) && |q| == |centers| && Tables(lut) && FilledAll(q, centers, off, lut)
    requires |row| == |off| - 1 && Decodes(centers, off, row, x) && c <= |row|
    ensures |lut| == |row| && |x| == |q| && off[c] <= |q|
    ensures RowDist(row[..c], lut) == -Dot(q[..off[c]], x[..off[c]])
  {
    assert |lut| == |row| && |x| == |q| && off[c] <= |q|;
    hide *;
    if c == 0 {
      NoDims(q, x, row, lut);
      assert off[0] == 0 by { FirstOffset(centers, off); }
    } else {
      DistUpTo(q, centers, off, lut, row, x, c - 1);
      ChunkDist(q, centers, off, lut, row, x, c - 1);
      NextChunk(row, lut, c - 1);
      DotSplit(q, x, off[c - 1], off[c]);
    }
  }

  lemma DotSplit(q: seq<real>, x: seq<real>, lo: nat, hi: nat)
    requires |q| == |x| && lo <= hi <= |q|
    ensures Dot(q[..hi], x[..hi]) == Dot(q[..lo], x[..lo]) + Dot(q[lo..hi], x[lo..hi])
  {
    hide Dot;
    assert q[..hi] == q[..lo] + q[lo..hi] && x[..hi] == x[..lo] + x[lo..hi];
    DotJoin(q[..lo], x[..lo], q[lo..hi], x[lo..hi]);
  }

  lemma NoDims(q: seq<real>, x: seq<real>, row: Row, lut: seq<seq<real>>)
    requires Tables(lut)
    ensures Dot(q[..0], x[..0]) == 0.0 && RowDist(row[..0], lut) == 0.0
  {}

  lemma FirstOffset(centers: seq<seq<real>>, off: seq<nat>)
    requires Chunked(centers, off)
    ensures off[0] == 0
  {}

  lemma NextChunk(row: Row, lut: seq<seq<real>>, c: nat)
    requires c < |row| <= |lut| && Tables(lut)
    ensures |lut[c]| == 256 && RowDist(row[..c + 1], lut) == RowDist(row[..c], lut) + lut[c][row[c] as nat]
  {
    assert row[..c + 1][..c] == row[..c];
  }

  /** One chunk's table entry is its share of the inner product. */
  lemma ChunkDist(q: seq<real>, centers: seq<seq<real>>, off: seq<nat>, lut: seq<seq<real>>, row: Row, x: seq<real>, c: nat)
    requires Chunked(centers, off) && |q| == |centers| && FilledAll(q, centers, off, lut)
    requires |row| == |off| - 1 && Decodes(centers, off, row, x) && c < |row|
    ensures off[c] <= off[c + 1] <= |q| && c < |lut| && |lut[c]| == 256
    ensures |x| == |q| && lut[c][row[c] as nat] == -Dot(q[off[c]..off[c + 1]], x[off[c]..off[c + 1]])
  {
    hide Dot;
    var lo, hi := off[c], off[c + 1];
    assert Filled(q, centers, lo, hi, lut[c]);
    assert x[lo..hi] == Column(centers, lo, hi, row[c] as nat);
  }

  function Dists(rows: seq<Row>, lut: seq<seq<real>>): (r: seq<real>)
    requires (forall i :: 0 <= i < |rows| ==> |rows[i]| <= |lut|) && Tables(lut)
  {
    seq(|rows|, i requires 0 <= i < |rows| => RowDist(rows[i], lut))
  }

  /** Distances read off permuted codes are the old distances, permuted: the PQ half of renumbering the index. */
  lemma PermutedDists(rows: seq<Row>, lut: seq<seq<real>>, newToOld: seq<nat>)
    requires (forall i :: 0 <= i < |rows| ==> |rows[i]| <= |lut|) && Tables(lut)
    requires forall i :: 0 <= i < |newToOld| ==> newToOld[i] < |rows|
    ensures Dists(Permute(rows, newToOld), lut) == Permute(Dists(rows, lut), newToOld)
  {}
}
