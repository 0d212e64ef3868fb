/**
 The two breadth-first numberings of the layout tools, the entry list walked on
 the rewritten graph, and why the star-pack tool may skip that walk.
 */
module BfsLayout {
  import opened Common
  import opened Counting
  import opened Numberers
  import opened BfsSpec
  import opened Relabel
  import opened BitSets

  /** An entry outside the graph is read as node 0. */
  function EntryOf(id: nat, n: nat): nat {
    if id >= n then 0 else id
  }

  lemma StartsAt(rows: seq<seq<nat>>, e: nat)
    requires e < |rows|
    ensures |Numbering(rows, e)| == |rows| && Numbering(rows, e)[0] == e
  {
    BfsDone(rows, e);
    assert BfsFrom(rows, e).order[0] == e && BfsFrom(rows, e).order <= Numbering(rows, e);
  }

  /** tools/reorder_layout_bfs.cpp: number every node when it is first met. */
  method StarPack(rows: seq<seq<nat>>, entryId: nat) returns (num: Numberer)
    requires 0 < |rows| <= UNSET
    ensures fresh(num) && fresh(num.newToOld) && fresh(num.oldToNew)
    ensures num.newToOld[..] == Numbering(rows, EntryOf(entryId, |rows|))
    ensures num.newToOld.Length == |rows| && num.newToOld[0] == if entryId < |rows| then entryId else 0
    ensures Renumbering(num.newToOld[..], num.oldToNew[..])
  {
    num := StarWalk(rows, EntryOf(entryId, |rows|));
    StartsAt(rows, EntryOf(entryId, |rows|));
    hide Bfs, Rest, Renumbering, InIdOrder;
    num.AssignRest();
  }

  method StarWalk(rows: seq<seq<nat>>, entry: nat) returns (num: Numberer)
    requires 0 < |rows| <= UNSET && entry < |rows|
    ensures fresh(num) && fresh(num.newToOld) && fresh(num.oldToNew) && num.Valid() && num.n == |rows|
    ensures num.Order() == BfsFrom(rows, entry).order
  {
    hide *;
    var n := |rows|;
    num := new Numberer(n);
    NumbererSized(num);
    var q: seq<nat> := [entry];
    var _ := num.Assign(entry);
    FirstMet(rows, entry);
    ghost var w := Walk([entry], [0]);
    ghost var head := 0;
    while q != []
      invariant fresh(num) && fresh(num.newToOld) && fresh(num.oldToNew) && num.Valid() && num.n == n && num.Sized()
      invariant Good(n, w) && head <= |w.order| <= n && num.Order() == w.order && q == w.order[head..]
      invariant Bfs(rows, w, head) == BfsFrom(rows, entry)
      decreases n - head
    {
      BfsTurn(rows, w, head);
      var u := q[0];
      q := MeetAll(num, q[1..], w, rows[u], head);
      NumbererSized(num);
      w := AddRow(n, w, rows[u], head);
      head := head + 1;
      GoodFits(n, w);
    }
    BfsOver(rows, w, head);
  }

  lemma NumbererSized(num: Numberer)
    requires num.Valid()
    ensures num.Sized()
  {}

  lemma GoodFits(n: nat, w: Walk)
    requires Good(n, w)
    ensures |w.order| <= n
  {
    DistinctBound(w.order, n);
  }

  lemma FirstMet(rows: seq<seq<nat>>, entry: nat)
    requires entry < |rows|
    ensures WithNew([], entry) == [entry] && Good(|rows|, Walk([entry], [0]))
    ensures Bfs(rows, Walk([entry], [0]), 0) == BfsFrom(rows, entry)
  {}

  /** The neighbours of one node: each one not numbered yet is numbered and queued. */
  method MeetAll(num: Numberer, q0: seq<nat>, ghost w: Walk, row: seq<nat>, ghost head: nat) returns (q: seq<nat>)
    requires num.Valid() && Good(num.n, w) && num.Order() == w.order && head < |w.order| && q0 == w.order[head + 1..]
    modifies num, num.newToOld, num.oldToNew
    ensures num.Valid() && Good(num.n, AddRow(num.n, w, row, head))
    ensures num.Order() == AddRow(num.n, w, row, head).order
    ensures head < |num.Order()| && q == num.Order()[head + 1..]
  {
    q := q0;
    assert row[..0] == [];
    for k := 0 to |row|
      invariant num.Valid() && head < |num.Order()| && q == num.Order()[head + 1..]
      invariant num.Order() == AddRow(num.n, w, row[..k], head).order
    {
      assert row[..k + 1][..k] == row[..k];
      var v := row[k];
      if v >= num.n || num.oldToNew[v] != UNSET { continue; }
      var _ := num.Assign(v);
      q := q + [v];
    }
    assert row[..|row|] == row;
    AddRowGood(num.n, w, row, head);
  }

  /** tools/pack_layout_pagebin.cpp: the entry is numbered when it is taken, and queued nodes are marked apart. */
  method PageBin(rows: seq<seq<nat>>, entryId: nat) returns (num: Numberer)
    requires 0 < |rows| <= UNSET
    ensures fresh(num) && fresh(num.newToOld) && fresh(num.oldToNew)
    ensures num.newToOld[..] == Numbering(rows, EntryOf(entryId, |rows|))
    ensures num.newToOld.Length == |rows| && num.newToOld[0] == if entryId < |rows| then entryId else 0
    ensures Renumbering(num.newToOld[..], num.oldToNew[..])
  {
    num := PageWalk(rows, EntryOf(entryId, |rows|));
    StartsAt(rows, EntryOf(entryId, |rows|));
    hide Bfs, Rest, Renumbering, InIdOrder;
    num.AssignRest();
  }

  method PageWalk(rows: seq<seq<nat>>, entry: nat) returns (num: Numberer)
    requires 0 < |rows| <= UNSET && entry < |rows|
    ensures fresh(num) && fresh(num.newToOld) && fresh(num.oldToNew) && num.Valid() && num.n == |rows|
    ensures num.Order() == BfsFrom(rows, entry).order
  {
    hide *;
    var n := |rows|;
    var inq;
    num, inq := OnlyEntry(n, entry);
    var q: seq<nat> := [entry];
    ghost var w := Walk([entry], [0]);
    ghost var head := 0;
    FirstMet(rows, entry);
    while q != []
      invariant fresh(num) && fresh(num.newToOld) && fresh(num.oldToNew) && fresh(inq) && num.n == n
      invariant Walking(num, inq, q, w, head) && Good(n, w) && head <= |w.order| && (q == [] <==> head == |w.order|)
      invariant Bfs(rows, w, head) == BfsFrom(rows, entry)
      decreases n - head
    {
      WalkRoom(num, inq, q, w, head);
      ghost var u := w.order[head];
      BfsTurn(rows, w, head);
      q := TakeOne(num, inq, q, w, rows[q[0]], head);
      w := AddRow(n, w, rows[u], head);
      head := head + 1;
    }
    WalkOver(num, inq, q, w, head);
    BfsOver(rows, w, head);
  }

  /** With every node taken the walk is done. */
  lemma BfsOver(rows: seq<seq<nat>>, w: Walk, head: nat)
    requires Good(|rows|, w) && head == |w.order|
    ensures Bfs(rows, w, head) == w
  {}

  /** Nothing numbered yet, the entry marked as queued. */
  method OnlyEntry(n: nat, entry: nat) returns (num: Numberer, inq: array<bool>)
    requires entry < n <= UNSET
    ensures fresh(num) && fresh(num.newToOld) && fresh(num.oldToNew) && fresh(inq) && num.n == n
    ensures Walking(num, inq, [entry], Walk([entry], [0]), 0) && Good(n, Walk([entry], [0]))
  {
    num := new Numberer(n);
    inq := new bool[n](_ => false);
    inq[entry] := true;
  }

  /** Where the walk stands: the entry is numbered only once it has been taken. */
  ghost predicate Walking(num: Numberer, inq: array<bool>, q: seq<nat>, w: Walk, head: nat)
    reads num, num.newToOld, num.oldToNew, inq
  {
    && num.Valid() && Good(num.n, w) && head <= |w.order| && q == w.order[head..] && Queued(inq, w.order, num.n)
    && num.Order() == (if head == 0 then [] else w.order) && (head == 0 ==> |w.order| == 1)
  }

  lemma WalkRoom(num: Numberer, inq: array<bool>, q: seq<nat>, w: Walk, head: nat)
    requires Walking(num, inq, q, w, head) && q != []
    ensures head < |w.order| <= num.n && q[0] == w.order[head] < num.n
  {
    DistinctBound(w.order, num.n);
  }

  lemma WalkOver(num: Numberer, inq: array<bool>, q: seq<nat>, w: Walk, head: nat)
    requires Walking(num, inq, q, w, head) && q == []
    ensures num.Valid() && num.Order() == w.order
  {}

  /** One node taken: the walk goes on from the next. */
  lemma BfsTurn(rows: seq<seq<nat>>, w: Walk, head: nat)
    requires Good(|rows|, w) && head < |w.order|
    ensures w.order[head] < |rows|
    ensures var r := AddRow(|rows|, w, rows[w.order[head]], head);
      Good(|rows|, r) && head < |r.order| && Bfs(rows, w, head) == Bfs(rows, r, head + 1)
  {
    AddRowGood(|rows|, w, rows[w.order[head]], head);
  }

  /** One node taken from the queue: numbered if it is the entry, then its neighbours. */
  method TakeOne(num: Numberer, inq: array<bool>, q0: seq<nat>, ghost w: Walk, row: seq<nat>, ghost head: nat) returns (q: seq<nat>)
    requires Walking(num, inq, q0, w, head) && q0 != []
    modifies num, num.newToOld, num.oldToNew, inq
    ensures Walking(num, inq, q, AddRow(num.n, w, row, head), head + 1)
    ensures q == [] <==> head + 1 == |AddRow(num.n, w, row, head).order|
  {
    WalkRoom(num, inq, q0, w, head);
    AddRowGood(num.n, w, row, head);
    var u := q0[0];
    var _ := num.Assign(u);
    assert num.Order() == w.order;
    q := QueueAll(num, inq, q0[1..], w, row, head);
  }

  ghost predicate Queued(inq: array<bool>, order: seq<nat>, n: nat)
    reads inq
  {
    inq.Length == n && forall v: nat :: v < n ==> (inq[v] <==> v in order)
  }

  method QueueAll(num: Numberer, inq: array<bool>, q0: seq<nat>, ghost w: Walk, row: seq<nat>, ghost head: nat) returns (q: seq<nat>)
    requires num.Valid() && Good(num.n, w) && num.Order() == w.order && head < |w.order| && q0 == w.order[head + 1..]
    requires Queued(inq, w.order, num.n)
    modifies num, num.newToOld, num.oldToNew, inq
    ensures num.Valid() && Good(num.n, AddRow(num.n, w, row, head))
    ensures num.Order() == AddRow(num.n, w, row, head).order && Queued(inq, num.Order(), num.n)
    ensures head < |num.Order()| && q == num.Order()[head + 1..]
  {
    q := q0;
    assert row[..0] == [];
    for k := 0 to |row|
      invariant num.Valid() && head < |num.Order()| && q == num.Order()[head + 1..]
      invariant Queued(inq, num.Order(), num.n)
      invariant num.Order() == AddRow(num.n, w, row[..k], head).order
    {
      assert row[..k + 1][..k] == row[..k];
      var v := row[k];
      if v >= num.n { continue; }
      if num.oldToNew[v] == UNSET { var _ := num.Assign(v); }
      if !inq[v] {
        inq[v] := true;
        q := q + [v];
      }
    }
    assert row[..|row|] == row;
    AddRowGood(num.n, w, row, head);
  }

  // ------------------------------------------------------------ the entry list

  /** The first `limit` nodes of a walk over the written graph. */
  method EntryList(rows: seq<seq<nat>>, entry: nat, limit: nat) returns (list: seq<nat>)
    requires entry < |rows|
    ensures list == BfsFrom(rows, entry).order[..Min(limit, |BfsFrom(rows, entry).order|)]
  {
    hide *;
    var n := |rows|;
    var seen := new BitSet(n);
    var q: seq<nat> := [entry];
    seen.Mark(entry);
    list := [];
    ghost var w := Walk([entry], [0]);
    ghost var head := 0;
    OneMarked(seen, entry);
    FirstMet(rows, entry);
    while q != [] && |list| < limit
      invariant seen.Valid() && seen.size == n && fresh(seen.bytes) && Marks(seen, w.order)
      invariant Good(n, w) && head <= |w.order| <= n && q == w.order[head..] && list == w.order[..head] && head <= limit
      invariant Bfs(rows, w, head) == BfsFrom(rows, entry)
      decreases n - head
    {
      BfsTurn(rows, w, head);
      AddRowGood(n, w, rows[w.order[head]], head);
      var u := q[0];
      list := list + [u];
      q := MarkAll(seen, q[1..], w, rows[u], head);
      w := AddRow(n, w, rows[u], head);
      head := head + 1;
      GoodFits(n, w);
    }
    BfsGrows(rows, w, head);
    SmallerOf(limit, |BfsFrom(rows, entry).order|);
    if q == [] { BfsOver(rows, w, head); }
  }

  lemma OneMarked(seen: BitSet, entry: nat)
    requires seen.Valid() && seen.Marked() == {entry}
    ensures Marks(seen, [entry])
  {}

  lemma SmallerOf(a: nat, b: nat)
    ensures Min(a, b) == if a < b then a else b
  {}

  ghost predicate Marks(seen: BitSet, order: seq<nat>)
    requires seen.Valid()
    reads seen.bytes
  {
    forall v: nat :: v < seen.size ==> (v in seen.Marked() <==> v in order)
  }

  method MarkAll(seen: BitSet, q0: seq<nat>, ghost w: Walk, row: seq<nat>, ghost head: nat) returns (q: seq<nat>)
    requires seen.Valid() && Marks(seen, w.order) && Good(seen.size, w) && head < |w.order| && q0 == w.order[head + 1..]
    modifies seen.bytes
    ensures Marks(seen, AddRow(seen.size, w, row, head).order)
    ensures head < |AddRow(seen.size, w, row, head).order| && q == AddRow(seen.size, w, row, head).order[head + 1..]
  {
    hide BitSet.Marked;
    q := q0;
    assert row[..0] == [];
    for k := 0 to |row|
      invariant head < |AddRow(seen.size, w, row[..k], head).order|
      invariant Marks(seen, AddRow(seen.size, w, row[..k], head).order)
      invariant q == AddRow(seen.size, w, row[..k], head).order[head + 1..]
    {
      assert row[..k + 1][..k] == row[..k];
      var v := row[k];
      if v >= seen.size { continue; }
      var has := seen.Test(v);
      if has { continue; }
      seen.Mark(v);
      q := q + [v];
    }
    assert row[..|row|] == row;
  }

  lemma {:induction false} BfsGrows(rows: seq<seq<nat>>, w: Walk, head: nat)
    requires Good(|rows|, w) && head <= |w.order|
    ensures w.order <= Bfs(rows, w, head).order
    decreases |rows| - head
  {
    if head < |w.order| {
      DistinctBound(w.order, |rows|);
      AddRowGood(|rows|, w, rows[w.order[head]], head);
      BfsGrows(rows, AddRow(|rows|, w, rows[w.order[head]], head), head + 1);
    }
  }

  // ------------------------------------------------------------ the walk on the renumbered graph

  function MoveOrder(order: seq<nat>, oldToNew: seq<nat>): (r: seq<nat>)
    requires Below(order, |oldToNew|)
  {
    seq(|order|, i requires 0 <= i < |order| => oldToNew[order[i]])
  }

  function MoveWalk(w: Walk, oldToNew: seq<nat>): Walk
    requires Below(w.order, |oldToNew|)
  {
    Walk(MoveOrder(w.order, oldToNew), w.par)
  }

  /** The walk stays where rows name nodes only, or the node that strays become is already met. */
  ghost predicate StraysMet(rows: seq<seq<nat>>, newToOld: seq<nat>, inside: set<nat>, w: Walk) {
    || (Enclosed(rows, inside) && forall i :: 0 <= i < |w.order| ==> w.order[i] in inside)
    || (newToOld != [] && newToOld[0] in w.order)
  }

  lemma StraysStillMet(rows: seq<seq<nat>>, newToOld: seq<nat>, inside: set<nat>, w: Walk, head: nat)
    requires Good(|rows|, w) && head < |w.order| && StraysMet(rows, newToOld, inside, w)
    ensures var row := rows[w.order[head]];
      && ((forall k :: 0 <= k < |row| ==> row[k] < |rows|) || (newToOld != [] && newToOld[0] in w.order))
      && StraysMet(rows, newToOld, inside, AddRow(|rows|, w, row, head))
  {
    var row := rows[w.order[head]];
    AddRowGood(|rows|, w, row, head);
    var r := AddRow(|rows|, w, row, head);
    if newToOld != [] && newToOld[0] in w.order {
      var i :| 0 <= i < |w.order| && w.order[i] == newToOld[0];
      assert r.order[i] == newToOld[0];
    } else {
      assert RowInside(rows, inside, w.order[head]);
      forall i | 0 <= i < |r.order| ensures r.order[i] in inside {
        if i < |w.order| { assert r.order[i] == w.order[i]; } else { assert r.order[i] in row; }
      }
    }
  }

  lemma MoveMember(order: seq<nat>, newToOld: seq<nat>, oldToNew: seq<nat>, v: nat)
    requires Renumbering(newToOld, oldToNew) && Below(order, |oldToNew|) && v < |oldToNew|
    ensures oldToNew[v] in MoveOrder(order, oldToNew) <==> v in order
  {
    var r := MoveOrder(order, oldToNew);
    if v in order {
      var i :| 0 <= i < |order| && order[i] == v;
      assert r[i] == oldToNew[v];
    }
    if oldToNew[v] in r {
      var i :| 0 <= i < |r| && r[i] == oldToNew[v];
      assert newToOld[oldToNew[order[i]]] == order[i];
    }
  }

  lemma {:induction false} MoveRow(n: nat, newToOld: seq<nat>, oldToNew: seq<nat>, w: Walk, row: seq<nat>, h: nat)
    requires Renumbering(newToOld, oldToNew) && n == |oldToNew| && Good(n, w)
    requires (forall k :: 0 <= k < |row| ==> row[k] < n) || (n > 0 && newToOld[0] in w.order)
    ensures Good(n, AddRow(n, w, row, h))
    ensures AddRow(n, MoveWalk(w, oldToNew), RemapRow(row, oldToNew), h) == MoveWalk(AddRow(n, w, row, h), oldToNew)
  {
    AddRowGood(n, w, row, h);
    if row != [] {
      var init, v := row[..|row| - 1], row[|row| - 1];
      MoveRow(n, newToOld, oldToNew, w, init, h);
      AddRowGood(n, w, init, h);
      var a := AddRow(n, w, init, h);
      assert RemapRow(row, oldToNew)[..|row| - 1] == RemapRow(init, oldToNew);
      MoveMember(a.order, newToOld, oldToNew, if v < n then v else newToOld[0]);
    }
  }

  lemma {:induction false} MoveBfs(rows: seq<seq<nat>>, newToOld: seq<nat>, oldToNew: seq<nat>, inside: set<nat>, w: Walk, head: nat)
    requires Renumbering(newToOld, oldToNew) && |oldToNew| == |rows| && Good(|rows|, w) && head <= |w.order|
    requires StraysMet(rows, newToOld, inside, w)
    ensures Good(|rows|, MoveWalk(w, oldToNew)) && Good(|rows|, Bfs(rows, w, head))
    ensures Bfs(RemapRows(rows, newToOld, oldToNew), MoveWalk(w, oldToNew), head) == MoveWalk(Bfs(rows, w, head), oldToNew)
    decreases |rows| - head
  {
    MovedGood(|rows|, w, newToOld, oldToNew);
    if head < |w.order| {
      DistinctBound(w.order, |rows|);
      var row := rows[w.order[head]];
      AddRowGood(|rows|, w, row, head);
      StraysStillMet(rows, newToOld, inside, w, head);
      MoveRow(|rows|, newToOld, oldToNew, w, row, head);
      assert newToOld[oldToNew[w.order[head]]] == w.order[head];
      assert RemapRows(rows, newToOld, oldToNew)[MoveWalk(w, oldToNew).order[head]] == RemapRow(row, oldToNew);
      hide RemapRows, AddRow, RemapRow, StraysMet;
      MoveBfs(rows, newToOld, oldToNew, inside, AddRow(|rows|, w, row, head), head + 1);
    }
  }

  lemma MovedGood(n: nat, w: Walk, newToOld: seq<nat>, oldToNew: seq<nat>)
    requires Renumbering(newToOld, oldToNew) && |oldToNew| == n && Good(n, w)
    ensures Good(n, MoveWalk(w, oldToNew))
  {
    forall i, j | 0 <= i < j < |w.order| ensures oldToNew[w.order[i]] != oldToNew[w.order[j]] {
      assert newToOld[oldToNew[w.order[i]]] == w.order[i] && newToOld[oldToNew[w.order[j]]] == w.order[j];
    }
  }

  /** Walking the renumbered graph meets the same nodes in the same order. */
  lemma WalkMoves(rows: seq<seq<nat>>, newToOld: seq<nat>, oldToNew: seq<nat>, e: nat)
    requires Renumbering(newToOld, oldToNew) && |oldToNew| == |rows| && e < |rows|
    requires NoStrays(rows, e) || oldToNew[e] == 0
    ensures Below(BfsFrom(rows, e).order, |rows|)
    ensures BfsFrom(RemapRows(rows, newToOld, oldToNew), oldToNew[e]).order == MoveOrder(BfsFrom(rows, e).order, oldToNew)
  {
    var w := Walk([e], [0]);
    assert newToOld[oldToNew[e]] == e && e in w.order;
    if NoStrays(rows, e) { ReachEnclosed(rows, e); }
    MoveBfs(rows, newToOld, oldToNew, ReachSet(rows, e), w, 0);
    assert MoveWalk(w, oldToNew) == Walk([oldToNew[e]], [0]);
  }

  function UpTo(n: nat): (r: seq<nat>) {
    seq(n, i requires 0 <= i < n => i)
  }

  /** On the graph star-pack writes, the walk from the entry is 0, 1, 2, ... over the reachable nodes. */
  lemma StarPackWalk(rows: seq<seq<nat>>, e: nat, newToOld: seq<nat>, oldToNew: seq<nat>)
    requires e < |rows| && newToOld == Numbering(rows, e) && Renumbering(newToOld, oldToNew)
    ensures oldToNew[e] == 0
    ensures BfsFrom(RemapRows(rows, newToOld, oldToNew), 0).order == UpTo(|BfsFrom(rows, e).order|)
  {
    BfsDone(rows, e);
    var o := BfsFrom(rows, e).order;
    assert o <= newToOld && newToOld[0] == o[0] == e && oldToNew[newToOld[0]] == 0;
    WalkMoves(rows, newToOld, oldToNew, e);
    assert forall i :: 0 <= i < |o| ==> o[i] == newToOld[i] && oldToNew[newToOld[i]] == i;
  }

  /**
   The shortcut: star-pack writes 0..limit as its entry list without walking.
   That is the walked list exactly when at least `limit` nodes can be reached.
   */
  lemma ShortcutExact(rows: seq<seq<nat>>, e: nat, newToOld: seq<nat>, oldToNew: seq<nat>, limit: nat)
    requires e < |rows| && newToOld == Numbering(rows, e) && Renumbering(newToOld, oldToNew)
    ensures oldToNew[e] == 0
    ensures var walked := BfsFrom(RemapRows(rows, newToOld, oldToNew), 0).order;
      UpTo(limit) == walked[..Min(limit, |walked|)] <==> limit <= |BfsFrom(rows, e).order|
  {
    StarPackWalk(rows, e, newToOld, oldToNew);
    var m := |BfsFrom(rows, e).order|;
    assert |UpTo(limit)| == limit && |UpTo(m)[..Min(limit, m)]| == Min(limit, m);
    if limit <= m { assert UpTo(limit) == UpTo(m)[..limit]; }
  }

  /** Two nodes without an edge and a limit of two: the written list has node 1, which no walk from the entry meets. */
  lemma ShortcutListsUnreached()
    ensures var rows: seq<seq<nat>> := [[], []];
      && Numbering(rows, 0) == [0, 1] && Renumbering([0, 1], [0, 1])
      && BfsFrom(RemapRows(rows, [0, 1], [0, 1]), 0).order == [0] && UpTo(2) == [0, 1]
  {
    var rows: seq<seq<nat>> := [[], []];
    var w := Walk([0], [0]);
    assert AddRow(2, w, [], 0) == w;
    assert Bfs(rows, w, 0) == Bfs(rows, w, 1) == w;
    assert WithNew([0], 0) == [0] && WithNew([0], 1) == [0, 1];
    assert Rest([0], 0, 2) == Rest([0], 1, 2) == Rest([0, 1], 2, 2);
    assert RemapRows(rows, [0, 1], [0, 1]) == rows;
  }
}
