/**
 The greedy block numbering of tools/pack_layout_bundle.cpp on values: what a
 block is, which one is best, and how placing one changes the counts.
 */
module BundleSpec {
  import opened Common
  import opened Numberers

  /** Bucket [h][r], row by row: hot nodes above cold ones, more free neighbours above fewer. */
  function Key(hot: bool, r: nat): nat {
    (if hot then 33 else 0) + r
  }

  function Sum(s: seq<nat>): nat {
    if s == [] then 0 else Sum(s[..|s| - 1]) + s[|s| - 1]
  }

  lemma {:induction false} SumUpdate(s: seq<nat>, i: nat, x: nat)
    requires i < |s|
    ensures Sum(s[i := x]) + s[i] == Sum(s) + x
  {
    var n := |s| - 1;
    if i == n { assert s[i := x][..n] == s[..n]; }
    else {
      assert s[i := x][..n] == s[..n][i := x];
      SumUpdate(s[..n], i, x);
    }
  }

  function Sizes(b: seq<seq<nat>>): (r: seq<nat>) {
    seq(|b|, i requires 0 <= i < |b| => |b[i]|)
  }

  /** Entries in all buckets. */
  function Total(b: seq<seq<nat>>): nat {
    Sum(Sizes(b))
  }

  lemma TotalUpdate(b: seq<seq<nat>>, k: nat, s: seq<nat>)
    requires k < |b|
    ensures Total(b[k := s]) + |b[k]| == Total(b) + |s|
  {
    assert Sizes(b[k := s]) == Sizes(b)[k := |s|];
    SumUpdate(Sizes(b), k, |s|);
  }

  // ------------------------------------------------------------ free neighbours

  /** The in-range neighbours not yet placed, in row order. */
  function FreeOf(n: nat, row: seq<nat>, order: seq<nat>): seq<nat> {
    if row == [] then []
    else
      var v := row[|row| - 1];
      FreeOf(n, row[..|row| - 1], order) + (if v < n && v !in order then [v] else [])
  }

  /** A row laid out in two parts gives the free ones of the first, then those of the second. */
  lemma {:induction false} FreeJoin(n: nat, a: seq<nat>, b: seq<nat>, order: seq<nat>)
    ensures FreeOf(n, a + b, order) == FreeOf(n, a, order) + FreeOf(n, b, order)
  {
    if b == [] {
      assert a + b == a;
    } else {
      assert (a + b)[..|a + b| - 1] == a + b[..|b| - 1];
      FreeJoin(n, a, b[..|b| - 1], order);
    }
  }

  /** A row that names no in-range node twice. */
  ghost predicate NoRepeat(n: nat, row: seq<nat>) {
    forall i, j :: 0 <= i < j < |row| && row[i] < n ==> row[i] != row[j]
  }

  lemma {:induction false} FreeMembers(n: nat, row: seq<nat>, order: seq<nat>)
    ensures var f := FreeOf(n, row, order);
      && |f| <= |row| && (forall v :: v in f <==> v in row && v < n && v !in order)
      && (NoRepeat(n, row) ==> Distinct(f))
  {
    if row != [] {
      var init := row[..|row| - 1];
      FreeMembers(n, init, order);
      assert row == init + [row[|row| - 1]];
    }
  }

  function Less(a: nat, b: nat): nat { if a < b then 0 else a - b }

  /** `rem[w]` less one, not below zero, for each mention of `w`. */
  function Drop(rem: seq<nat>, ws: seq<nat>): (r: seq<nat>)
    ensures |r| == |rem|
  {
    if ws == [] then rem
    else
      var r := Drop(rem, ws[..|ws| - 1]);
      var w := ws[|ws| - 1];
      if w < |r| && r[w] > 0 then r[w := r[w] - 1] else r
  }

  lemma {:induction false} DropCounts(rem: seq<nat>, ws: seq<nat>, w: nat)
    requires w < |rem|
    ensures Drop(rem, ws)[w] == Less(rem[w], multiset(ws)[w])
  {
    if ws != [] {
      var init := ws[..|ws| - 1];
      assert ws == init + [ws[|ws| - 1]];
      DropCounts(rem, init, w);
    }
  }

  lemma {:induction false} DropSum(rem: seq<nat>, ws: seq<nat>)
    ensures Sum(Drop(rem, ws)) <= Sum(rem)
    ensures (exists w: nat :: w < |rem| && w in ws && rem[w] > 0) ==> Sum(Drop(rem, ws)) < Sum(rem)
  {
    if ws != [] {
      var init, x := ws[..|ws| - 1], ws[|ws| - 1];
      DropSum(rem, init);
      var r := Drop(rem, init);
      if x < |r| && r[x] > 0 { SumUpdate(r, x, r[x] - 1); }
      if w: nat :| w < |rem| && w in ws && rem[w] > 0 {
        assert ws == init + [x];
        if w in init { assert exists w: nat :: w < |rem| && w in init && rem[w] > 0; }
        else { DropCounts(rem, init, w); }
      }
    }
  }

  /** The parents of the placed nodes, one mention per edge. */
  function Parents(inadj: seq<seq<nat>>, ids: seq<nat>): seq<nat> {
    if ids == [] then []
    else Parents(inadj, ids[..|ids| - 1]) + (if ids[|ids| - 1] < |inadj| then inadj[ids[|ids| - 1]] else [])
  }

  /** `inadj[v]` mentions `w` as often as row `w` mentions `v`. */
  ghost predicate Inverted(rows: seq<seq<nat>>, inadj: seq<seq<nat>>) {
    && |inadj| == |rows|
    && (forall v, i :: 0 <= v < |inadj| && 0 <= i < |inadj[v]| ==> inadj[v][i] < |rows|)
    && forall v: nat, w: nat :: v < |rows| && w < |rows| ==> multiset(inadj[v])[w] == multiset(rows[w])[v]
  }

  /** The ids numbered in turn, each at most once. */
  function AddAll(order: seq<nat>, ids: seq<nat>): seq<nat> {
    if ids == [] then order else WithNew(AddAll(order, ids[..|ids| - 1]), ids[|ids| - 1])
  }

  /** Numbering two lists in turn is numbering them laid end to end. */
  lemma {:induction false} AddAllJoin(order: seq<nat>, a: seq<nat>, b: seq<nat>)
    ensures AddAll(order, a + b) == AddAll(AddAll(order, a), b)
  {
    if b == [] {
      assert a + b == a;
    } else {
      assert (a + b)[..|a + b| - 1] == a + b[..|b| - 1];
      AddAllJoin(order, a, b[..|b| - 1]);
    }
  }

  lemma {:induction false} AddAllMembers(order: seq<nat>, ids: seq<nat>)
    ensures forall v :: v in AddAll(order, ids) <==> v in order || v in ids
    ensures Distinct(ids) && (forall v :: v in ids ==> v !in order) ==> AddAll(order, ids) == order + ids
  {
    if ids != [] {
      var init := ids[..|ids| - 1];
      AddAllMembers(order, init);
      assert ids == init + [ids[|ids| - 1]];
    }
  }

  /** How often the row mentions the listed ids, one by one. */
  function Mentions(row: seq<nat>, ids: seq<nat>): nat {
    if ids == [] then 0 else Mentions(row, ids[..|ids| - 1]) + multiset(row)[ids[|ids| - 1]]
  }

  /** The part of that for ids listed before. */
  function Extra(row: seq<nat>, ids: seq<nat>): nat {
    if ids == [] then 0
    else Extra(row, ids[..|ids| - 1]) + if ids[|ids| - 1] in ids[..|ids| - 1] then multiset(row)[ids[|ids| - 1]] else 0
  }

  ghost predicate Repeated(ids: seq<nat>, v: nat) {
    multiset(ids)[v] > 1
  }

  lemma {:induction false} NoExtra(row: seq<nat>, ids: seq<nat>)
    ensures Extra(row, ids) == 0 <==> forall v: nat :: Repeated(ids, v) ==> v !in row
  {
    if ids != [] {
      var init, x := ids[..|ids| - 1], ids[|ids| - 1];
      NoExtra(row, init);
      assert ids == init + [x];
      forall v: nat ensures Repeated(ids, v) <==> Repeated(init, v) || (v == x && x in init) {}
      assert multiset(row)[x] == 0 <==> x !in row;
      assert x in init <==> Repeated(ids, x);
    }
  }

  /** The parents' list mentions a node as often as its row mentions the ids. */
  lemma {:induction false} ParentMentions(rows: seq<seq<nat>>, inadj: seq<seq<nat>>, ids: seq<nat>, w: nat)
    requires Inverted(rows, inadj) && w < |rows| && Below(ids, |rows|)
    ensures multiset(Parents(inadj, ids))[w] == Mentions(rows[w], ids)
  {
    if ids != [] {
      var init, v := ids[..|ids| - 1], ids[|ids| - 1];
      assert ids == init + [v];
      ParentMentions(rows, inadj, init, w);
      assert multiset(Parents(inadj, ids)) == multiset(Parents(inadj, init)) + multiset(inadj[v]);
    }
  }

  /** Free before, and what was taken twice, is what was taken and what is free after. */
  lemma {:induction false} FreeAfter(n: nat, row: seq<nat>, order: seq<nat>, ids: seq<nat>)
    requires Below(ids, n) && forall v :: v in ids ==> v !in order
    ensures |FreeOf(n, row, order)| + Extra(row, ids) == |FreeOf(n, row, AddAll(order, ids))| + Mentions(row, ids)
  {
    if ids != [] {
      var init, v := ids[..|ids| - 1], ids[|ids| - 1];
      assert ids == init + [v];
      forall u | u in init ensures u !in order { assert u in ids; }
      assert Below(init, n);
      FreeAfter(n, row, order, init);
      AddAllMembers(order, init);
      if v !in init { FreeWithout(n, row, AddAll(order, init), v); }
    }
  }

  lemma {:induction false} FreeWithout(n: nat, row: seq<nat>, order: seq<nat>, v: nat)
    requires v < n && v !in order
    ensures |FreeOf(n, row, order)| == |FreeOf(n, row, order + [v])| + multiset(row)[v]
  {
    if row != [] {
      var init := row[..|row| - 1];
      assert row == init + [row[|row| - 1]];
      FreeWithout(n, init, order, v);
    }
  }

  /** The counts the queue keeps are the numbers of free neighbours. */
  ghost predicate Exact(rows: seq<seq<nat>>, order: seq<nat>, rem: seq<nat>) {
    |rem| == |rows| && forall w :: 0 <= w < |rows| ==> rem[w] == |FreeOf(|rows|, rows[w], order)|
  }

  /** Every row that names a node listed twice has no free neighbour left. */
  ghost predicate Tidy(rows: seq<seq<nat>>, order: seq<nat>, ids: seq<nat>) {
    forall w: nat, v :: w < |rows| && Repeated(ids, v) && v in rows[w] ==> FreeOf(|rows|, rows[w], AddAll(order, ids)) == []
  }

  /** The counts less the mentions of the placed ids, not below zero. */
  function Counted(rows: seq<seq<nat>>, rem: seq<nat>, ids: seq<nat>): (r: seq<nat>)
    requires |rem| == |rows|
  {
    seq(|rows|, w requires 0 <= w < |rows| => Less(rem[w], Mentions(rows[w], ids)))
  }

  /** Dropping every parent once per mention counts the mentions. */
  lemma DropIsCounted(rows: seq<seq<nat>>, inadj: seq<seq<nat>>, rem: seq<nat>, ids: seq<nat>)
    requires Inverted(rows, inadj) && |rem| == |rows| && Below(ids, |rows|)
    ensures Drop(rem, Parents(inadj, ids)) == Counted(rows, rem, ids)
  {
    var r := Drop(rem, Parents(inadj, ids));
    forall w: nat | w < |rows| ensures r[w] == Less(rem[w], Mentions(rows[w], ids)) {
      DropCounts(rem, Parents(inadj, ids), w);
      ParentMentions(rows, inadj, ids, w);
    }
  }

  /** One row's count after a block is right exactly when nothing in it was taken twice, or nothing is left in it. */
  lemma RowExact(n: nat, row: seq<nat>, order: seq<nat>, ids: seq<nat>, r: nat)
    requires Below(ids, n) && (forall v :: v in ids ==> v !in order) && r == |FreeOf(n, row, order)|
    ensures Less(r, Mentions(row, ids)) == |FreeOf(n, row, AddAll(order, ids))| <==>
            FreeOf(n, row, AddAll(order, ids)) == [] || forall v :: Repeated(ids, v) ==> v !in row
  {
    FreeAfter(n, row, order, ids);
    NoExtra(row, ids);
  }

  /**
   Placing free nodes and dropping each parent once per edge keeps the counts
   equal to the numbers of free neighbours exactly when every row that names a
   node placed twice has no free neighbour left.
   */
  lemma ExactAfter(rows: seq<seq<nat>>, inadj: seq<seq<nat>>, order: seq<nat>, ids: seq<nat>, rem: seq<nat>)
    requires Inverted(rows, inadj) && Exact(rows, order, rem)
    requires Below(ids, |rows|) && forall v :: v in ids ==> v !in order
    ensures Exact(rows, AddAll(order, ids), Drop(rem, Parents(inadj, ids))) <==> Tidy(rows, order, ids)
  {
    DropIsCounted(rows, inadj, rem, ids);
    CountedExact(rows, order, ids, rem);
  }

  lemma CountedExact(rows: seq<seq<nat>>, order: seq<nat>, ids: seq<nat>, rem: seq<nat>)
    requires Exact(rows, order, rem) && Below(ids, |rows|) && forall v :: v in ids ==> v !in order
    ensures Exact(rows, AddAll(order, ids), Counted(rows, rem, ids)) <==> Tidy(rows, order, ids)
  {
    forall w: nat | w < |rows|
      ensures Counted(rows, rem, ids)[w] == |FreeOf(|rows|, rows[w], AddAll(order, ids))| <==>
              forall v :: Repeated(ids, v) && v in rows[w] ==> FreeOf(|rows|, rows[w], AddAll(order, ids)) == []
    {
      RowExact(|rows|, rows[w], order, ids, rem[w]);
    }
  }

  /** Whatever rows repeat, a count never exceeds the number of free neighbours. */
  ghost predicate AtMost(rows: seq<seq<nat>>, order: seq<nat>, rem: seq<nat>) {
    |rem| == |rows| && forall w :: 0 <= w < |rows| ==> rem[w] <= |FreeOf(|rows|, rows[w], order)|
  }

  lemma AtMostAfter(rows: seq<seq<nat>>, order: seq<nat>, ids: seq<nat>, rem: seq<nat>)
    requires AtMost(rows, order, rem) && Below(ids, |rows|) && forall v :: v in ids ==> v !in order
    ensures AtMost(rows, AddAll(order, ids), Counted(rows, rem, ids))
  {
    forall w: nat | w < |rows| ensures Counted(rows, rem, ids)[w] <= |FreeOf(|rows|, rows[w], AddAll(order, ids))| {
      FreeAfter(|rows|, rows[w], order, ids);
    }
  }

  // ------------------------------------------------------------ a row that repeats itself

  ghost const TWICE: seq<seq<nat>> := [[1, 1], [], [1, 2]]
  ghost const TWICE_IN: seq<seq<nat>> := [[], [0, 0, 2], [2]]

  /** The free ones of a row of two. */
  lemma FreeTwo(n: nat, a: nat, b: nat, order: seq<nat>)
    ensures FreeOf(n, [a, b], order) == (if a < n && a !in order then [a] else []) + (if b < n && b !in order then [b] else [])
  {
    assert FreeOf(n, [], order) == [];
    assert [a][..0] == [] && FreeOf(n, [a], order) == (if a < n && a !in order then [a] else []);
    assert [a, b][..1] == [a];
  }

  lemma TwiceInverted()
    ensures Inverted(TWICE, TWICE_IN)
  {
    forall v: nat, w: nat | v < 3 && w < 3 ensures multiset(TWICE_IN[v])[w] == multiset(TWICE[w])[v] {
      if w == 0 { assert TWICE[0] == [1, 1]; } else if w == 1 { assert TWICE[1] == []; } else { assert TWICE[2] == [1, 2]; }
      if v == 0 { assert TWICE_IN[0] == []; } else if v == 1 { assert TWICE_IN[1] == [0, 0, 2]; } else { assert TWICE_IN[2] == [2]; }
    }
  }

  lemma TwiceParents()
    ensures Parents(TWICE_IN, [1, 1]) == [0, 0, 2, 0, 0, 2]
  {
    assert Parents(TWICE_IN, []) == [];
    assert [1][..0] == [] && Parents(TWICE_IN, [1]) == [0, 0, 2];
    assert [1, 1][..1] == [1];
  }

  /**
   A row naming a node twice puts it in the block twice, and a parent then
   loses two for one placed neighbour: its count says none are left while one
   is.
   */
  lemma RepeatMiscounts()
    ensures Inverted(TWICE, TWICE_IN) && Exact(TWICE, [], [2, 0, 2])
    ensures FreeOf(3, TWICE[0], []) == [1, 1]
    ensures Drop([2, 0, 2], Parents(TWICE_IN, [1, 1]))[2] == 0 && FreeOf(3, TWICE[2], [1]) == [2]
  {
    TwiceInverted();
    TwiceParents();
    TwiceFree();
    TwiceDropped();
    hide *;
  }

  lemma TwiceFree()
    ensures Exact(TWICE, [], [2, 0, 2]) && FreeOf(3, TWICE[0], []) == [1, 1] && FreeOf(3, TWICE[2], [1]) == [2]
  {
    FreeTwo(3, 1, 1, []);
    FreeTwo(3, 1, 2, []);
    FreeTwo(3, 1, 2, [1]);
    assert FreeOf(3, [], []) == [];
    hide FreeOf;
    assert TWICE[0] == [1, 1] && TWICE[1] == [] && TWICE[2] == [1, 2];
  }

  lemma TwiceDropped()
    ensures Drop([2, 0, 2], [0, 0, 2, 0, 0, 2])[2] == 0
  {
    DropCounts([2, 0, 2], [0, 0, 2, 0, 0, 2], 2);
    hide Drop;
    assert multiset([0, 0, 2, 0, 0, 2]) == multiset{0, 0, 2, 0, 0, 2};
  }

  // ------------------------------------------------------------ greedy numbering

  /** The numbering that placing the blocks of `picks`, one after another, gives. */
  function OrderOf(rows: seq<seq<nat>>, picks: seq<nat>): seq<nat>
    requires Below(picks, |rows|)
  {
    if picks == [] then []
    else
      var p := OrderOf(rows, picks[..|picks| - 1]);
      AddAll(p, FreeOf(|rows|, rows[picks[|picks| - 1]], p))
  }

  /** The counts kept along the way. */
  function CountsOf(rows: seq<seq<nat>>, picks: seq<nat>): (r: seq<nat>)
    requires Below(picks, |rows|)
    ensures |r| == |rows|
  {
    if picks == [] then seq(|rows|, w requires 0 <= w < |rows| => |FreeOf(|rows|, rows[w], [])|)
    else
      var init := picks[..|picks| - 1];
      Counted(rows, CountsOf(rows, init), FreeOf(|rows|, rows[picks[|picks| - 1]], OrderOf(rows, init)))
  }

  /** `u` has a positive count; if any node with one is hot so is `u`, and none on its side has a larger one. */
  ghost predicate Top(hot: seq<bool>, rem: seq<nat>, u: nat) {
    && u < |rem| == |hot| && rem[u] > 0
    && forall w: nat :: w < |rem| && rem[w] > 0 ==> (hot[w] ==> hot[u]) && (hot[w] == hot[u] ==> rem[w] <= rem[u])
  }

  /** The block loop's run: every node taken was a top one by the counts. */
  ghost predicate Taken(rows: seq<seq<nat>>, hot: seq<bool>, picks: seq<nat>) {
    Below(picks, |rows|) && forall i :: 0 <= i < |picks| ==> TopAt(rows, hot, picks, i)
  }

  ghost predicate TopAt(rows: seq<seq<nat>>, hot: seq<bool>, picks: seq<nat>, i: nat) {
    i < |picks| && Below(picks[..i], |rows|) && Top(hot, CountsOf(rows, picks[..i]), picks[i])
  }

  /** It ends with every count at zero, or every node numbered. */
  ghost predicate Over(rows: seq<seq<nat>>, picks: seq<nat>)
    requires Below(picks, |rows|)
  {
    (forall w :: 0 <= w < |rows| ==> CountsOf(rows, picks)[w] == 0) || (forall v: nat :: v < |rows| ==> v in OrderOf(rows, picks))
  }

  lemma TakenMore(rows: seq<seq<nat>>, hot: seq<bool>, picks: seq<nat>, u: nat)
    requires Taken(rows, hot, picks) && u < |rows| && Top(hot, CountsOf(rows, picks), u)
    ensures Taken(rows, hot, picks + [u])
  {
    hide Top;
    assert (picks + [u])[..|picks|] == picks;
    forall i | 0 <= i < |picks + [u]| ensures TopAt(rows, hot, picks + [u], i) {
      if i < |picks| { assert TopAt(rows, hot, picks, i) && (picks + [u])[..i] == picks[..i]; }
    }
  }

  lemma FreeBelow(rows: seq<seq<nat>>, u: nat, order: seq<nat>)
    requires u < |rows|
    ensures var ids := FreeOf(|rows|, rows[u], order); Below(ids, |rows|) && forall v :: v in ids ==> v !in order && v in rows[u]
  {
    var ids := FreeOf(|rows|, rows[u], order);
    FreeMembers(|rows|, rows[u], order);
    forall i | 0 <= i < |ids| ensures ids[i] < |rows| { assert ids[i] in ids; }
  }

  /** In every run the counts stay at or below the free neighbours. */
  lemma {:induction false} TakenAtMost(rows: seq<seq<nat>>, picks: seq<nat>)
    requires Below(picks, |rows|)
    ensures AtMost(rows, OrderOf(rows, picks), CountsOf(rows, picks))
  {
    if picks != [] {
      var init, u := picks[..|picks| - 1], picks[|picks| - 1];
      var p := OrderOf(rows, init);
      TakenAtMost(rows, init);
      FreeBelow(rows, u, p);
      AtMostAfter(rows, p, FreeOf(|rows|, rows[u], p), CountsOf(rows, init));
    }
  }

  /** So every block of every run has a node in it: the guard against an empty block is never met. */
  lemma BlocksFilled(rows: seq<seq<nat>>, hot: seq<bool>, picks: seq<nat>, i: nat)
    requires Taken(rows, hot, picks) && i < |picks|
    ensures picks[i] < |rows| && Below(picks[..i], |rows|)
    ensures FreeOf(|rows|, rows[picks[i]], OrderOf(rows, picks[..i])) != []
  {
    assert TopAt(rows, hot, picks, i);
    TakenAtMost(rows, picks[..i]);
  }

  // ------------------------------------------------------------ when the counts stay exact

  ghost predicate ExactAt(rows: seq<seq<nat>>, picks: seq<nat>, i: nat) {
    i <= |picks| && Below(picks[..i], |rows|) && Exact(rows, OrderOf(rows, picks[..i]), CountsOf(rows, picks[..i]))
  }

  ghost predicate TidyAt(rows: seq<seq<nat>>, picks: seq<nat>, i: nat) {
    && i < |picks| && Below(picks[..i], |rows|) && picks[i] < |rows|
    && Tidy(rows, OrderOf(rows, picks[..i]), FreeOf(|rows|, rows[picks[i]], OrderOf(rows, picks[..i])))
  }

  ghost predicate AllExact(rows: seq<seq<nat>>, picks: seq<nat>) {
    forall i: nat :: i <= |picks| ==> ExactAt(rows, picks, i)
  }

  lemma ExactStart(rows: seq<seq<nat>>, picks: seq<nat>)
    ensures ExactAt(rows, picks, 0)
  {
    assert picks[..0] == [];
  }

  lemma ExactNext(rows: seq<seq<nat>>, picks: seq<nat>, i: nat)
    requires Below(picks, |rows|) && i < |picks| && ExactAt(rows, picks, i)
    ensures ExactAt(rows, picks, i + 1) <==> TidyAt(rows, picks, i)
  {
    var init, u := picks[..i], picks[i];
    var p := OrderOf(rows, init);
    assert picks[..i + 1][..i] == init;
    FreeBelow(rows, u, p);
    CountedExact(rows, p, FreeOf(|rows|, rows[u], p), CountsOf(rows, init));
    hide Tidy, Exact, Counted, FreeOf, AddAll;
  }

  /** The counts are right after every block exactly when every block is tidy. */
  lemma ExactIffTidy(rows: seq<seq<nat>>, picks: seq<nat>)
    requires Below(picks, |rows|)
    ensures AllExact(rows, picks) <==> forall i: nat :: i < |picks| ==> TidyAt(rows, picks, i)
  {
    hide ExactAt, TidyAt;
    if AllExact(rows, picks) {
      forall i: nat | i < |picks| ensures TidyAt(rows, picks, i) {
        assert ExactAt(rows, picks, i) && ExactAt(rows, picks, i + 1);
        ExactNext(rows, picks, i);
      }
    }
    if forall i: nat :: i < |picks| ==> TidyAt(rows, picks, i) {
      forall i: nat | i <= |picks| ensures ExactAt(rows, picks, i) { ExactUpTo(rows, picks, i); }
    }
  }

  lemma {:induction false} ExactUpTo(rows: seq<seq<nat>>, picks: seq<nat>, i: nat)
    requires Below(picks, |rows|) && i <= |picks| && forall j: nat :: j < i ==> TidyAt(rows, picks, j)
    ensures ExactAt(rows, picks, i)
  {
    hide ExactAt, TidyAt;
    if i == 0 {
      ExactStart(rows, picks);
    } else {
      ExactUpTo(rows, picks, i - 1);
      ExactNext(rows, picks, i - 1);
    }
  }

  /** A row that names a node twice holds every neighbour of every row that names that node. */
  ghost predicate SelfContained(rows: seq<seq<nat>>) {
    forall u: nat, w: nat, v: nat :: u < |rows| && w < |rows| && v < |rows| && Repeated(rows[u], v) && v in rows[w] ==> RowWithin(rows, w, u)
  }

  ghost predicate RowWithin(rows: seq<seq<nat>>, w: nat, u: nat)
    requires u < |rows| && w < |rows|
  {
    forall x :: x in rows[w] && x < |rows| ==> x in rows[u]
  }

  function Times(s: seq<nat>, v: nat): nat { multiset(s)[v] }

  lemma TimesMore(s: seq<nat>, u: nat, v: nat)
    ensures Times(s + [u], v) == Times(s, v) + if u == v then 1 else 0
  {}

  lemma {:induction false} FreeRepeats(n: nat, row: seq<nat>, order: seq<nat>, v: nat)
    ensures Times(FreeOf(n, row, order), v) == if v < n && v !in order then Times(row, v) else 0
  {
    if row != [] {
      hide Times;
      var init, u := row[..|row| - 1], row[|row| - 1];
      FreeRepeats(n, init, order, v);
      assert row == init + [u];
      TimesMore(init, u, v);
      TimesMore(FreeOf(n, init, order), u, v);
    }
  }

  /** A contained row's block is tidy whenever it is placed. */
  lemma ContainedTidy(rows: seq<seq<nat>>, order: seq<nat>, u: nat)
    requires SelfContained(rows) && u < |rows|
    ensures Tidy(rows, order, FreeOf(|rows|, rows[u], order))
  {
    var ids := FreeOf(|rows|, rows[u], order);
    forall w: nat, v: nat | w < |rows| && Repeated(ids, v) && v in rows[w] ensures FreeOf(|rows|, rows[w], AddAll(order, ids)) == [] {
      FreeRepeats(|rows|, rows[u], order, v);
      assert Repeated(rows[u], v) && v < |rows|;
      assert RowWithin(rows, w, u);
      NoneLeft(rows, order, u, w);
    }
  }

  /** After the block of a row with all of `w`'s neighbours `w` has none left, and if it has none left they were there or placed before. */
  lemma NoneLeft(rows: seq<seq<nat>>, order: seq<nat>, u: nat, w: nat)
    requires u < |rows| && w < |rows|
    ensures FreeOf(|rows|, rows[w], AddAll(order, FreeOf(|rows|, rows[u], order))) == [] <==>
            forall x: nat :: x in rows[w] && x < |rows| ==> x in rows[u] || x in order
  {
    var ids := FreeOf(|rows|, rows[u], order);
    var left := FreeOf(|rows|, rows[w], AddAll(order, ids));
    FreeMembers(|rows|, rows[u], order);
    AddAllMembers(order, ids);
    FreeMembers(|rows|, rows[w], AddAll(order, ids));
    NoMembers(left);
    hide FreeOf, AddAll;
    forall x: nat ensures x in left <==> x in rows[w] && x < |rows| && x !in rows[u] && x !in order {}
  }

  lemma NoMembers(f: seq<nat>)
    ensures (forall v: nat :: v !in f) <==> f == []
  {
    if f != [] { assert f[0] in f; }
  }

  /**
   The counts are right in every run for every hot set exactly when every row
   that names a node twice holds all neighbours of every row naming that node.
   */
  lemma ExactIffContained(rows: seq<seq<nat>>)
    requires SmallRows(rows)
    ensures (forall hot, picks :: Taken(rows, hot, picks) ==> AllExact(rows, picks)) <==> SelfContained(rows)
  {
    if SelfContained(rows) {
      forall hot, picks | Taken(rows, hot, picks) ensures AllExact(rows, picks) { ContainedExact(rows, picks); }
    }
    if forall hot, picks :: Taken(rows, hot, picks) ==> AllExact(rows, picks) {
      forall u: nat, w: nat, v: nat | u < |rows| && w < |rows| && v < |rows| && Repeated(rows[u], v) && v in rows[w] ensures RowWithin(rows, w, u) {
        HotFirst(rows, u, v);
        FirstTidy(rows, u, w, v);
      }
    }
  }

  /** At most 32 in-range neighbours a row, the buckets there are. */
  ghost predicate SmallRows(rows: seq<seq<nat>>) {
    forall u :: 0 <= u < |rows| ==> |FreeOf(|rows|, rows[u], [])| <= 32
  }

  lemma ContainedExact(rows: seq<seq<nat>>, picks: seq<nat>)
    requires SelfContained(rows) && Below(picks, |rows|)
    ensures AllExact(rows, picks)
  {
    forall i: nat | i < |picks| ensures TidyAt(rows, picks, i) { ContainedTidy(rows, OrderOf(rows, picks[..i]), picks[i]); }
    ExactIffTidy(rows, picks);
  }

  ghost function OnlyHot(n: nat, u: nat): seq<bool> {
    seq(n, w => w == u)
  }

  /** A node that is the only hot one and has a neighbour is taken first. */
  lemma HotFirst(rows: seq<seq<nat>>, u: nat, v: nat)
    requires SmallRows(rows) && u < |rows| && v < |rows| && v in rows[u]
    ensures Taken(rows, OnlyHot(|rows|, u), [u])
  {
    FreeMembers(|rows|, rows[u], []);
    NoMembers(FreeOf(|rows|, rows[u], []));
    assert [u][..0] == [];
  }

  lemma FirstTidy(rows: seq<seq<nat>>, u: nat, w: nat, v: nat)
    requires u < |rows| && w < |rows| && v < |rows| && Repeated(rows[u], v) && v in rows[w] && AllExact(rows, [u])
    ensures RowWithin(rows, w, u)
  {
    TidyFirst(rows, u);
    FreeRepeats(|rows|, rows[u], [], v);
    assert Repeated(FreeOf(|rows|, rows[u], []), v);
    NoneLeft(rows, [], u, w);
    hide FreeOf, AddAll, AllExact;
  }

  lemma TidyFirst(rows: seq<seq<nat>>, u: nat)
    requires u < |rows| && AllExact(rows, [u])
    ensures Tidy(rows, [], FreeOf(|rows|, rows[u], []))
  {
    ExactIffTidy(rows, [u]);
    hide Tidy, AllExact, FreeOf;
    assert TidyAt(rows, [u], 0);
    assert [u][..0] == [] && OrderOf(rows, []) == [];
  }

  /** Rows without repeats are contained. */
  lemma CleanContained(rows: seq<seq<nat>>)
    requires CleanRows(rows)
    ensures SelfContained(rows)
  {
    forall u: nat, v: nat | u < |rows| && v < |rows| ensures !Repeated(rows[u], v) { NoRepeatOnce(|rows|, rows[u], v); }
  }

  lemma {:induction false} NoRepeatOnce(n: nat, row: seq<nat>, v: nat)
    requires NoRepeat(n, row) && v < n
    ensures multiset(row)[v] <= 1
  {
    if row != [] {
      var init := row[..|row| - 1];
      assert row == init + [row[|row| - 1]];
      NoRepeatOnce(n, init, v);
    }
  }

  ghost predicate CleanRows(rows: seq<seq<nat>>) {
    forall u :: 0 <= u < |rows| ==> NoRepeat(|rows|, rows[u])
  }

  // ------------------------------------------------------------ greedy

  /** Nothing beats `u`: hot nodes first, then the most free neighbours; and it has some. */
  ghost predicate Best(rows: seq<seq<nat>>, hot: seq<bool>, order: seq<nat>, u: nat) {
    && u < |rows| == |hot| && FreeOf(|rows|, rows[u], order) != []
    && forall w: nat :: w < |rows| && FreeOf(|rows|, rows[w], order) != [] ==>
         && (hot[w] ==> hot[u])
         && (hot[w] == hot[u] ==> |FreeOf(|rows|, rows[w], order)| <= |FreeOf(|rows|, rows[u], order)|)
  }

  /** Every block was a best one when it was placed, and no node with a free neighbour is left. */
  ghost predicate Greedy(rows: seq<seq<nat>>, hot: seq<bool>, picks: seq<nat>) {
    && Below(picks, |rows|)
    && (forall i :: 0 <= i < |picks| ==> BestAt(rows, hot, picks, i))
    && forall w :: 0 <= w < |rows| ==> FreeOf(|rows|, rows[w], OrderOf(rows, picks)) == []
  }

  ghost predicate BestAt(rows: seq<seq<nat>>, hot: seq<bool>, picks: seq<nat>, i: nat) {
    i < |picks| && Below(picks[..i], |rows|) && Best(rows, hot, OrderOf(rows, picks[..i]), picks[i])
  }

  lemma TopIsBest(rows: seq<seq<nat>>, hot: seq<bool>, order: seq<nat>, rem: seq<nat>, u: nat)
    requires Exact(rows, order, rem) && Top(hot, rem, u)
    ensures Best(rows, hot, order, u)
  {
    forall w: nat | w < |rows| && FreeOf(|rows|, rows[w], order) != []
      ensures (hot[w] ==> hot[u]) && (hot[w] == hot[u] ==> |FreeOf(|rows|, rows[w], order)| <= |FreeOf(|rows|, rows[u], order)|)
    {
      assert rem[w] == |FreeOf(|rows|, rows[w], order)|;
    }
  }

  /** With right counts the run is the greedy one. */
  lemma GreedyWhenExact(rows: seq<seq<nat>>, hot: seq<bool>, picks: seq<nat>)
    requires Taken(rows, hot, picks) && Over(rows, picks) && AllExact(rows, picks)
    ensures Greedy(rows, hot, picks)
  {
    forall i | 0 <= i < |picks| ensures BestAt(rows, hot, picks, i) {
      assert TopAt(rows, hot, picks, i) && ExactAt(rows, picks, i);
      TopIsBest(rows, hot, OrderOf(rows, picks[..i]), CountsOf(rows, picks[..i]), picks[i]);
    }
    assert ExactAt(rows, picks, |picks|) && picks[..|picks|] == picks;
    forall w | 0 <= w < |rows| ensures FreeOf(|rows|, rows[w], OrderOf(rows, picks)) == [] {
      FreeMembers(|rows|, rows[w], OrderOf(rows, picks));
      NoMembers(FreeOf(|rows|, rows[w], OrderOf(rows, picks)));
    }
  }
}
