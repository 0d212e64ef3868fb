/**
 Pairing ids so that two share a page (tools/remap_diskann_pages.cpp): the
 three pairing modes fill `used` and `mate` in place, and the pairs are then
 given even and odd slots.
 */
module PagePairs {
  import opened Common
  import opened Numberers
  import opened Relabel

  class Matching {
    const n: nat
    const used: array<bool>
    const mate: array<nat>
    var paired: nat

    ghost predicate Sized()
      reads this
    {
      used.Length == n == mate.Length && used as object != mate as object && n <= UNSET
    }

    /** `mate` is a partial involution without fixed points, defined where `used` says. */
    ghost predicate Valid()
      reads this, used, mate
    {
      && Sized()
      && (forall u: nat :: u < n ==> (used[u] <==> mate[u] != UNSET))
      && (forall u: nat :: u < n && mate[u] != UNSET ==> mate[u] < n && mate[u] != u && mate[mate[u]] == u)
    }

    constructor (count: nat)
      requires count <= UNSET
      ensures Valid() && fresh(used) && fresh(mate) && n == count && forall u: nat :: u < n ==> !used[u]
    {
      n := count;
      used := new bool[count](_ => false);
      mate := new nat[count](_ => UNSET);
      paired := 0;
    }

    /** Two unused ids become mates; everything else stays. */
    method Pair(a: nat, b: nat)
      requires Valid() && a < n && b < n && a != b && !used[a] && !used[b]
      modifies this, used, mate
      ensures Valid() && mate[a] == b && mate[b] == a && used[a] && used[b]
      ensures forall u: nat :: u < n && u != a && u != b ==> used[u] == old(used[u]) && mate[u] == old(mate[u])
    {
      used[a], used[b] := true, true;
      mate[a], mate[b] := b, a;
      paired := paired + 1;
    }
  }

  /** Used ids stay used, with the mates they have. */
  twostate predicate Grows(m: Matching)
    requires m.Sized()
    reads m, m.used, m.mate
  {
    forall u: nat :: u < m.n && old(m.used[u]) ==> m.used[u] && m.mate[u] == old(m.mate[u])
  }

  /** Every in-range neighbour of the ids below `k` is used, or the id is. */
  ghost predicate CoveredBelow(m: Matching, rows: seq<seq<nat>>, k: nat)
    requires m.Sized()
    reads m, m.used
  {
    forall u: nat, v: nat :: u < k && u < |rows| && u < m.n && v in rows[u] && v < m.n && v != u ==> m.used[u] || m.used[v]
  }

  /** `v` may become the mate of an id of the row of `u`. */
  ghost predicate Open(used: seq<bool>, u: nat, v: nat) {
    v < |used| && v != u && !used[v]
  }

  ghost predicate NoneOpen(used: seq<bool>, u: nat, row: seq<nat>) {
    forall v: nat :: v in row ==> !Open(used, u, v)
  }

  /** The row up to some place lists nobody open, and `v` stands there. */
  ghost predicate FirstOpen(used: seq<bool>, u: nat, row: seq<nat>, v: nat) {
    Open(used, u, v) && exists j: nat :: j < |row| && row[j] == v && NoneOpen(used, u, row[..j])
  }

  /** The first unused neighbour, the strongest edge left. */
  method FirstUnused(m: Matching, u: nat, row: seq<nat>) returns (found: Option<nat>)
    requires m.Valid() && u < m.n
    ensures found.Some? ==> FirstOpen(m.used[..], u, row, found.value)
    ensures found.None? ==> NoneOpen(m.used[..], u, row)
  {
    for j := 0 to |row|
      invariant NoneOpen(m.used[..], u, row[..j])
    {
      assert row[..j + 1] == row[..j] + [row[j]];
      var v := row[j];
      if v < m.n && v != u && !m.used[v] { return Some(v); }
    }
    assert row[..|row|] == row;
    return None;
  }

  /**
   The turn of `u`, from the ids used before it to the ids used after it: one
   already used passes, any other takes the first open neighbour, if there is one.
   */
  ghost predicate Turn(before: seq<bool>, after: seq<bool>, mate: seq<nat>, u: nat, row: seq<nat>) {
    && |before| == |after| == |mate| && u < |mate|
    && if before[u] || NoneOpen(before, u, row) then after == before
       else FirstOpen(before, u, row, mate[u]) && after == before[u := true][mate[u] := true]
  }

  /** The ids used at the start, and after each of the turns 0, 1, 2 and so on. */
  ghost predicate TurnByTurn(log: seq<seq<bool>>, mate: seq<nat>, rows: seq<seq<nat>>) {
    0 < |log| <= |rows| + 1 && forall u: nat :: u + 1 < |log| ==> Turn(log[u], log[u + 1], mate, u, rows[u])
  }

  /** A later pair leaves the turns taken so far as they were. */
  lemma TurnsKept(log: seq<seq<bool>>, mate: seq<nat>, mate': seq<nat>, rows: seq<seq<nat>>)
    requires TurnByTurn(log, mate, rows) && |mate| == |mate'|
    requires forall v: nat :: v < |mate| && v < |log[|log| - 1]| && log[|log| - 1][v] ==> mate'[v] == mate[v]
    ensures TurnByTurn(log, mate', rows)
  {
    forall u: nat | u + 1 < |log| ensures Turn(log[u], log[u + 1], mate', u, rows[u]) {
      assert Turn(log[u], log[u + 1], mate, u, rows[u]);
      if !log[u][u] && !NoneOpen(log[u], u, rows[u]) { UsedOn(log, mate, rows, u, u + 1, |log| - 1); }
    }
  }

  lemma {:induction false} UsedOn(log: seq<seq<bool>>, mate: seq<nat>, rows: seq<seq<nat>>, v: nat, i: nat, j: nat)
    requires TurnByTurn(log, mate, rows) && i <= j < |log| && v < |log[i]| && log[i][v]
    ensures v < |log[j]| && log[j][v]
    decreases j - i
  {
    if i < j {
      assert Turn(log[i], log[i + 1], mate, i, rows[i]);
      UsedOn(log, mate, rows, v, i + 1, j);
    }
  }

  lemma OneTurn(log: seq<seq<bool>>, after: seq<bool>, mate: seq<nat>, rows: seq<seq<nat>>)
    requires TurnByTurn(log, mate, rows) && |log| <= |rows| && Turn(log[|log| - 1], after, mate, |log| - 1, rows[|log| - 1])
    ensures TurnByTurn(log + [after], mate, rows)
  {}

  /**
   Neighbour mode, and the last pass of co-occurrence mode: a maximal matching
   of the graph, over whatever is matched already, in which every id takes the
   first neighbour open at its turn.
   */
  method PairNeighbours(m: Matching, rows: seq<seq<nat>>) returns (ghost log: seq<seq<bool>>)
    requires m.Valid() && m.n == |rows|
    modifies m, m.used, m.mate
    ensures m.Valid() && Grows(m)
    ensures TurnByTurn(log, m.mate[..], rows) && |log| == m.n + 1 && log[0] == old(m.used[..]) && log[m.n] == m.used[..]
    ensures forall u: nat :: u < m.n && m.mate[u] != UNSET && old(m.mate[u]) == UNSET ==> m.mate[u] in rows[u] || u in rows[m.mate[u]]
    ensures CoveredBelow(m, rows, m.n)
  {
    log := [m.used[..]];
    for u := 0 to |rows|
      invariant m.Valid() && Grows(m) && CoveredBelow(m, rows, u)
      invariant TurnByTurn(log, m.mate[..], rows) && |log| == u + 1 && log[0] == old(m.used[..]) && log[u] == m.used[..]
      invariant forall u: nat :: u < m.n && m.mate[u] != UNSET && old(m.mate[u]) == UNSET ==> m.mate[u] in rows[u] || u in rows[m.mate[u]]
    {
      ghost var used, mate := m.used[..], m.mate[..];
      if m.used[u] {
        OneTurn(log, used, mate, rows);
        log := log + [used];
        continue;
      }
      var found := FirstUnused(m, u, rows[u]);
      if found.None? {
        OneTurn(log, used, mate, rows);
        log := log + [used];
        continue;
      }
      assert found.value in rows[u];
      m.Pair(u, found.value);
      TurnsKept(log, mate, m.mate[..], rows);
      OneTurn(log, m.used[..], m.mate[..], rows);
      log := log + [m.used[..]];
    }
  }

  /** At most one id of `row` other than `u` is left unused. */
  ghost predicate OneLeft(m: Matching, u: nat, row: seq<nat>)
    requires m.Sized()
    reads m, m.used
  {
    forall v: nat, w: nat :: v in row && w in row && v < m.n && w < m.n && v != u && w != u && !m.used[v] && !m.used[w] ==> v == w
  }

  /** Mates made here are two neighbours of one node. */
  twostate predicate Siblings(m: Matching, rows: seq<seq<nat>>)
    requires m.Sized()
    reads m, m.mate
  {
    forall v: nat :: v < m.n && m.mate[v] != UNSET && old(m.mate[v]) == UNSET ==> AreSiblings(rows, v, m.mate[v])
  }

  ghost predicate AreSiblings(rows: seq<seq<nat>>, v: nat, w: nat) {
    exists u: nat :: u < |rows| && InRow(rows[u], u, v) && InRow(rows[u], u, w)
  }

  ghost predicate InRow(row: seq<nat>, u: nat, v: nat) {
    v in row && v != u
  }

  ghost function MoreOpen(used: seq<bool>, u: nat, open: seq<nat>, v: nat): seq<nat> {
    if Open(used, u, v) && v !in open then open + [v] else open
  }

  /** The open ids of a row, each once, where the row first lists it. */
  ghost function OpenOnes(used: seq<bool>, u: nat, row: seq<nat>): (r: seq<nat>)
    ensures Distinct(r) && forall v: nat :: v in r <==> v in row && Open(used, u, v)
  {
    if row == [] then [] else
      MoreOpen(used, u, OpenOnes(used, u, row[..|row| - 1]), row[|row| - 1])
  }

  /** An id listed earlier than another in `OpenOnes` stands in the row before the other does for the first time. */
  lemma {:induction false} OpenInOrder(used: seq<bool>, u: nat, row: seq<nat>, i: nat, j: nat, at: nat)
    requires i < j < |OpenOnes(used, u, row)| && at < |row| && row[at] == OpenOnes(used, u, row)[j]
    ensures OpenOnes(used, u, row)[i] in row[..at]
  {
    var n := |row| - 1;
    var r := OpenOnes(used, u, row[..n]);
    assert at < n ==> row[..n][..at] == row[..at] && row[..n][at] == row[at];
    assert i < |r| && r[i] in r;
    if j < |r| && at < n { OpenInOrder(used, u, row[..n], i, j, at); }
  }

  lemma OneOpen(used: seq<bool>, u: nat, row: seq<nat>, j: nat)
    requires j < |row|
    ensures OpenOnes(used, u, row[..j + 1]) == MoreOpen(used, u, OpenOnes(used, u, row[..j]), row[j])
    ensures Distinct(OpenOnes(used, u, row[..j]))
  {
    assert row[..j + 1][..j] == row[..j] && row[..j + 1][j] == row[j];
  }

  lemma NoOpen(used: seq<bool>, mate: seq<nat>, u: nat)
    requires |used| == |mate|
    ensures OpenOnes(used, u, []) == [] && TwoByTwo([], used, mate, used, mate) && Waiting([]) == None
  {}

  /** Two by two, the ids of `open` are mates; a last one without a partner, and everyone else, is as before. */
  ghost predicate TwoByTwo(open: seq<nat>, used: seq<bool>, mate: seq<nat>, used': seq<bool>, mate': seq<nat>) {
    && |used| == |mate| == |used'| == |mate'| && Below(open, |used|)
    && (forall i :: 0 <= i && 2 * i + 1 < |open| ==> Mates(mate', open[2 * i], open[2 * i + 1]))
    && (forall v: nat :: v < |used| && v in open[..|open| / 2 * 2] ==> used'[v])
    && (forall v: nat :: v < |used| && v !in open[..|open| / 2 * 2] ==> used'[v] == used[v] && mate'[v] == mate[v])
  }

  ghost predicate Mates(mate: seq<nat>, a: nat, b: nat) {
    a < |mate| && b < |mate| && mate[a] == b && mate[b] == a
  }

  /** The id still waiting for a partner. */
  ghost function Waiting(open: seq<nat>): Option<nat> {
    if |open| % 2 == 0 then None else Some(open[|open| - 1])
  }

  /** An id in the list is used, or waits; an id outside it is as it was. */
  lemma UsedOrWaiting(open: seq<nat>, used: seq<bool>, mate: seq<nat>, used': seq<bool>, mate': seq<nat>, v: nat)
    requires TwoByTwo(open, used, mate, used', mate') && v < |used|
    ensures v in open ==> used'[v] || Waiting(open) == Some(v)
    ensures Waiting(open) == Some(v) ==> v in open
    ensures v !in open ==> used'[v] == used[v]
  {
    if v in open {
      var i :| 0 <= i < |open| && open[i] == v;
      assert i < |open| / 2 * 2 ==> open[..|open| / 2 * 2][i] == v;
    }
  }

  lemma HoldOne(open: seq<nat>, used: seq<bool>, mate: seq<nat>, used': seq<bool>, mate': seq<nat>, v: nat)
    requires TwoByTwo(open, used, mate, used', mate') && Waiting(open) == None && v < |used|
    ensures TwoByTwo(open + [v], used, mate, used', mate') && Waiting(open + [v]) == Some(v)
  {
    assert (open + [v])[..|open + [v]| / 2 * 2] == open[..|open| / 2 * 2];
  }

  lemma CoupleOne(open: seq<nat>, used: seq<bool>, mate: seq<nat>, used1: seq<bool>, mate1: seq<nat>, used2: seq<bool>, mate2: seq<nat>, v: nat)
    requires TwoByTwo(open, used, mate, used1, mate1) && Distinct(open) && Waiting(open).Some? && v < |used| && v !in open
    requires |used2| == |mate2| == |used| && Waiting(open).value < |used| && used2[v] && used2[Waiting(open).value]
    requires mate2[v] == Waiting(open).value && mate2[Waiting(open).value] == v
    requires forall w: nat :: w < |used| && w != v && w != Waiting(open).value ==> used2[w] == used1[w] && mate2[w] == mate1[w]
    ensures TwoByTwo(open + [v], used, mate, used2, mate2) && Waiting(open + [v]) == None
  {
    var n := |open| - 1;
    assert open[..|open| / 2 * 2] == open[..n] && (open + [v])[..|open + [v]| / 2 * 2] == open[..n] + [open[n]] + [v];
    forall i | 0 <= i && 2 * i + 1 < |open| + 1 ensures Mates(mate2, (open + [v])[2 * i], (open + [v])[2 * i + 1]) {
      if 2 * i + 1 < |open| { assert Mates(mate1, open[2 * i], open[2 * i + 1]) && 2 * i + 1 < n; }
    }
  }

  /** The one waiting and the next open id become mates. */
  method Couple(m: Matching, a: nat, b: nat, ghost open: seq<nat>, ghost used: seq<bool>, ghost mate: seq<nat>)
    requires m.Valid() && m.used.Length == m.n == m.mate.Length && a < m.n && b < m.n && a != b && !m.used[a] && !m.used[b]
    requires TwoByTwo(open, used, mate, m.used[..], m.mate[..]) && Distinct(open) && Waiting(open) == Some(a) && b !in open
    requires |used| == m.n
    modifies m, m.used, m.mate
    ensures m.Valid() && TwoByTwo(open + [b], used, mate, m.used[..], m.mate[..]) && Waiting(open + [b]) == None
  {
    hide *;
    ghost var used1, mate1 := m.used[..], m.mate[..];
    m.Pair(a, b);
    MatchingSized(m);
    CoupleOne(open, used, mate, used1, mate1, m.used[..], m.mate[..], b);
  }

  /** One row of co-expansion mode: its open ids are paired two by two, in the order of the row. */
  method CoupleRow(m: Matching, rows: seq<seq<nat>>, u: nat)
    requires m.Valid() && u < m.n == |rows|
    modifies m, m.used, m.mate
    ensures m.Valid()
    ensures TwoByTwo(OpenOnes(old(m.used[..]), u, rows[u]), old(m.used[..]), old(m.mate[..]), m.used[..], m.mate[..])
  {
    var row := rows[u];
    var pending: Option<nat> := None;
    ghost var used, mate := m.used[..], m.mate[..];
    ghost var open: seq<nat> := [];
    NoOpen(used, mate, u);
    MatchingSized(m);
    hide *;
    for j := 0 to |row|
      invariant m.Valid() && open == OpenOnes(used, u, row[..j]) && Coupling(m, open, used, mate, pending)
    {
      OneOpen(used, u, row, j);
      pending := CoupleTurn(m, u, row[j], pending, open, used, mate);
      open := MoreOpen(used, u, open, row[j]);
    }
    assert row[..|row|] == row;
  }

  /** Where the pairing of a row stands: all of `open` has a partner but the one pending. */
  ghost predicate Coupling(m: Matching, open: seq<nat>, used: seq<bool>, mate: seq<nat>, pending: Option<nat>)
    reads m, m.used, m.mate
  {
    && m.used.Length == m.n == m.mate.Length && |used| == m.n
    && TwoByTwo(open, used, mate, m.used[..], m.mate[..]) && Waiting(open) == pending
    && (pending.Some? ==> pending.value < m.n && !m.used[pending.value])
  }

  /** One id of the row: passed over, held until the next, or paired with the one held. */
  method CoupleTurn(m: Matching, u: nat, v: nat, held: Option<nat>, ghost open: seq<nat>, ghost used: seq<bool>, ghost mate: seq<nat>)
    returns (pending: Option<nat>)
    requires m.Valid() && Coupling(m, open, used, mate, held) && Distinct(open)
    modifies m, m.used, m.mate
    ensures m.Valid() && Coupling(m, MoreOpen(used, u, open, v), used, mate, pending)
  {
    hide TwoByTwo, Waiting, Distinct;
    ghost var used1, mate1 := m.used[..], m.mate[..];
    if v < m.n { UsedOrWaiting(open, used, mate, used1, mate1, v); }
    if v >= m.n || v == u || m.used[v] || held == Some(v) { return held; }
    if held.None? {
      HoldOne(open, used, mate, used1, mate1, v);
      return Some(v);
    }
    Couple(m, held.value, v, open, used, mate);
    return None;
  }

  /** An id after its row: a mate of before stays, a new one is a sibling, and an id still open is the one waiting. */
  ghost predicate RowDone(rows: seq<seq<nat>>, u: nat, used: seq<bool>, mate: seq<nat>, used': seq<bool>, mate': seq<nat>, v: nat)
    requires u < |rows| && v < |used| == |mate| == |used'| == |mate'|
  {
    && (used[v] ==> used'[v] && mate'[v] == mate[v])
    && (mate'[v] != UNSET && mate[v] == UNSET ==> AreSiblings(rows, v, mate'[v]))
    && (v in rows[u] && v != u && !used'[v] ==> Waiting(OpenOnes(used, u, rows[u])) == Some(v))
  }

  lemma OpenAt(used: seq<bool>, u: nat, row: seq<nat>, v: nat)
    ensures v in OpenOnes(used, u, row) <==> v in row && v < |used| && v != u && !used[v]
  {}

  /** An id in the coupled part of the list has its mate in the list, and any other the mate it had. */
  lemma Coupled(open: seq<nat>, used: seq<bool>, mate: seq<nat>, used': seq<bool>, mate': seq<nat>, v: nat)
    requires TwoByTwo(open, used, mate, used', mate') && v < |used|
    ensures (v in open && mate'[v] in open) || mate'[v] == mate[v]
  {
    if v in open[..|open| / 2 * 2] {
      var i :| 0 <= i < |open| / 2 * 2 && open[i] == v;
      assert Mates(mate', open[2 * (i / 2)], open[2 * (i / 2) + 1]);
    }
  }

  lemma BothInRow(rows: seq<seq<nat>>, u: nat, v: nat, w: nat)
    requires u < |rows| && v in rows[u] && w in rows[u] && v != u && w != u
    ensures AreSiblings(rows, v, w)
  {
    assert InRow(rows[u], u, v) && InRow(rows[u], u, w);
  }

  lemma RowCoupled(rows: seq<seq<nat>>, u: nat, used: seq<bool>, mate: seq<nat>, used': seq<bool>, mate': seq<nat>, v: nat)
    requires u < |rows| && v < |used| == |mate| == |used'| == |mate'|
    requires TwoByTwo(OpenOnes(used, u, rows[u]), used, mate, used', mate')
    ensures RowDone(rows, u, used, mate, used', mate', v)
  {
    hide TwoByTwo, OpenOnes, AreSiblings, Waiting, Open, InRow;
    OpenAt(used, u, rows[u], v);
    OpenAt(used, u, rows[u], mate'[v]);
    var open := OpenOnes(used, u, rows[u]);
    UsedOrWaiting(open, used, mate, used', mate', v);
    Coupled(open, used, mate, used', mate', v);
    if v in open && mate'[v] in open { BothInRow(rows, u, v, mate'[v]); }
  }

  /** So earlier mates stay, new ones are siblings, and the row keeps at most one open id. */
  method PairRow(m: Matching, rows: seq<seq<nat>>, u: nat)
    requires m.Valid() && u < m.n == |rows|
    modifies m, m.used, m.mate
    ensures m.Valid() && Grows(m) && Siblings(m, rows) && OneLeft(m, u, rows[u])
    ensures TwoByTwo(OpenOnes(old(m.used[..]), u, rows[u]), old(m.used[..]), old(m.mate[..]), m.used[..], m.mate[..])
  {
    ghost var used, mate := m.used[..], m.mate[..];
    CoupleRow(m, rows, u);
    hide TwoByTwo, OpenOnes, AreSiblings, Waiting;
    forall v: nat | v < m.n
      ensures old(m.used[v]) ==> m.used[v] && m.mate[v] == old(m.mate[v])
      ensures m.mate[v] != UNSET && old(m.mate[v]) == UNSET ==> AreSiblings(rows, v, m.mate[v])
      ensures v in rows[u] && v != u && !m.used[v] ==> Waiting(OpenOnes(used, u, rows[u])) == Some(v)
    {
      RowCoupled(rows, u, used, mate, m.used[..], m.mate[..], v);
      assert used[v] == old(m.used[v]) && mate[v] == old(m.mate[v]);
    }
  }

  /** The used ids and the mates at the start, and after each of the rows 0, 1, 2 and so on. */
  ghost predicate RowByRow(log: seq<(seq<bool>, seq<nat>)>, rows: seq<seq<nat>>) {
    && 0 < |log| <= |rows| + 1
    && forall u: nat :: u + 1 < |log| ==> TwoByTwo(OpenOnes(log[u].0, u, rows[u]), log[u].0, log[u].1, log[u + 1].0, log[u + 1].1)
  }

  /**
   Co-expansion mode: row by row the open ids are paired two by two, so mates
   are neighbours of one node, and no row keeps two of its ids unused.
   */
  method PairCoexpand(m: Matching, rows: seq<seq<nat>>) returns (ghost log: seq<(seq<bool>, seq<nat>)>)
    requires m.Valid() && m.n == |rows|
    modifies m, m.used, m.mate
    ensures m.Valid() && Grows(m) && Siblings(m, rows)
    ensures RowByRow(log, rows) && |log| == m.n + 1 && log[0] == old((m.used[..], m.mate[..])) && log[m.n] == (m.used[..], m.mate[..])
    ensures forall u: nat :: u < m.n ==> OneLeft(m, u, rows[u])
  {
    log := [(m.used[..], m.mate[..])];
    hide TwoByTwo, OpenOnes, AreSiblings;
    for u := 0 to |rows|
      invariant m.Valid() && Grows(m) && Siblings(m, rows)
      invariant RowByRow(log, rows) && |log| == u + 1 && log[0] == old((m.used[..], m.mate[..])) && log[u] == (m.used[..], m.mate[..])
      invariant forall w: nat :: w < u ==> OneLeft(m, w, rows[w])
    {
      label before:
      PairRow(m, rows, u);
      log := log + [(m.used[..], m.mate[..])];
      assert forall w: nat :: w < u && old@before(OneLeft(m, w, rows[w])) ==> OneLeft(m, w, rows[w]);
    }
  }

  ghost predicate Along(mate: seq<nat>, e: (nat, nat)) {
    e.0 < |mate| && e.1 < |mate| && mate[e.0] == e.1
  }

  predicate Touches(e: (nat, nat), f: (nat, nat)) {
    e.0 == f.0 || e.0 == f.1 || e.1 == f.0 || e.1 == f.1
  }

  /** Edge `i` touches a matched edge no later in the order. */
  ghost predicate Beaten(mate: seq<nat>, edges: seq<(nat, nat)>, i: nat)
    requires i < |edges|
  {
    exists j: nat :: j <= i && Along(mate, edges[j]) && Touches(edges[j], edges[i])
  }

  /** `u` is matched along one of the first `k` edges. */
  ghost predicate UsedBy(mate: seq<nat>, edges: seq<(nat, nat)>, k: nat, u: nat)
    requires k <= |edges|
  {
    exists j: nat :: j < k && Along(mate, edges[j]) && (edges[j].0 == u || edges[j].1 == u)
  }

  /** Every used id is matched along one of the first `k` edges, and each of those touches a matched one no later. */
  ghost predicate Greedily(used: seq<bool>, mate: seq<nat>, edges: seq<(nat, nat)>, k: nat)
    requires k <= |edges|
  {
    && (forall u: nat :: u < |used| && used[u] ==> UsedBy(mate, edges, k, u))
    && (forall i: nat :: i < k ==> Beaten(mate, edges, i))
  }

  /**
   Co-occurrence mode: take the edges heaviest first, each one whose ends are
   both unused.  So every edge touches a matched one at least as heavy.
   */
  method PairEdges(m: Matching, edges: seq<(nat, nat)>)
    requires m.Valid() && (forall u: nat :: u < m.n ==> !m.used[u])
    requires forall i :: 0 <= i < |edges| ==> edges[i].0 < m.n && edges[i].1 < m.n && edges[i].0 != edges[i].1
    modifies m, m.used, m.mate
    ensures m.Valid() && forall i: nat :: i < |edges| ==> Beaten(m.mate[..], edges, i)
    ensures forall u: nat :: u < m.n && m.used[u] ==> (u, m.mate[u]) in edges || (m.mate[u], u) in edges
  {
    hide *;
    MatchingSized(m);
    NoneUsed(m.used[..], m.mate[..], edges);
    for k := 0 to |edges|
      invariant m.Valid() && m.used.Length == m.n == m.mate.Length && Greedily(m.used[..], m.mate[..], edges, k)
    {
      var (a, b) := edges[k];
      assert edges[k].0 == a && edges[k].1 == b;
      if m.used[a] || m.used[b] {
        SkippedEdge(m.used[..], m.mate[..], edges, k);
        continue;
      }
      ghost var used, mate := m.used[..], m.mate[..];
      MatedUsed(m);
      m.Pair(a, b);
      MatchingSized(m);
      TakenEdge(used, mate, m.used[..], m.mate[..], edges, k);
    }
    AllEdges(m, edges);
  }

  lemma MatchingSized(m: Matching)
    requires m.Valid()
    ensures m.used.Length == m.n == m.mate.Length
  {}

  lemma MatedUsed(m: Matching)
    requires m.Valid()
    ensures m.mate.Length == m.used.Length && forall u: nat :: u < m.mate.Length && m.mate[u] < m.used.Length ==> m.used[u]
  {}

  lemma NoneUsed(used: seq<bool>, mate: seq<nat>, edges: seq<(nat, nat)>)
    requires forall u: nat :: u < |used| ==> !used[u]
    ensures Greedily(used, mate, edges, 0)
  {}

  /** An edge with a used end is passed over: that end was matched along an earlier one. */
  lemma SkippedEdge(used: seq<bool>, mate: seq<nat>, edges: seq<(nat, nat)>, k: nat)
    requires k < |edges| && Greedily(used, mate, edges, k)
    requires edges[k].0 < |used| && edges[k].1 < |used| && (used[edges[k].0] || used[edges[k].1])
    ensures Greedily(used, mate, edges, k + 1)
  {
    var v := if used[edges[k].0] then edges[k].0 else edges[k].1;
    assert UsedBy(mate, edges, k, v);
    var j: nat :| j < k && Along(mate, edges[j]) && (edges[j].0 == v || edges[j].1 == v);
    assert Beaten(mate, edges, k) by { assert Touches(edges[j], edges[k]); }
    forall u: nat | u < |used| && used[u] ensures UsedBy(mate, edges, k + 1, u) { UsedLonger(mate, mate, edges, k, u); }
    hide UsedBy, Beaten;
  }

  lemma UsedLonger(mate: seq<nat>, more: seq<nat>, edges: seq<(nat, nat)>, k: nat, u: nat)
    requires k < |edges| && UsedBy(mate, edges, k, u) && forall e :: Along(mate, e) && e in edges[..k] ==> Along(more, e)
    ensures UsedBy(more, edges, k + 1, u)
  {
    var j: nat :| j < k && Along(mate, edges[j]) && (edges[j].0 == u || edges[j].1 == u);
    assert edges[j] in edges[..k];
    assert j < k + 1 && Along(more, edges[j]);
  }

  lemma StillBeaten(mate: seq<nat>, more: seq<nat>, edges: seq<(nat, nat)>, k: nat, i: nat)
    requires i < k < |edges| && Beaten(mate, edges, i) && forall e :: Along(mate, e) && e in edges[..k] ==> Along(more, e)
    ensures Beaten(more, edges, i)
  {
    var j: nat :| j <= i && Along(mate, edges[j]) && Touches(edges[j], edges[i]);
    assert edges[j] in edges[..k];
    assert Along(more, edges[j]);
  }

  /** An edge with both ends unused joins the matching, and the edges matched before stay. */
  lemma TakenEdge(used: seq<bool>, mate: seq<nat>, used': seq<bool>, mate': seq<nat>, edges: seq<(nat, nat)>, k: nat)
    requires k < |edges| && |used| == |mate| == |used'| == |mate'| && edges[k].0 < |used| && edges[k].1 < |used|
    requires Greedily(used, mate, edges, k) && !used[edges[k].0] && !used[edges[k].1]
    requires mate'[edges[k].0] == edges[k].1
    requires forall i :: 0 <= i < k ==> edges[i].0 < |used| && edges[i].1 < |used|
    requires forall u: nat :: u < |used| && u != edges[k].0 && u != edges[k].1 ==> used'[u] == used[u] && mate'[u] == mate[u]
    requires forall u: nat :: u < |used| && mate[u] < |used| ==> used[u]
    ensures Greedily(used', mate', edges, k + 1)
  {
    hide *;
    forall e | Along(mate, e) && e in edges[..k] ensures Along(mate', e) { KeptAlong(used, mate, mate', edges[k], e); }
    JustAlong(mate', edges, k);
    forall i: nat | i < k ensures Beaten(mate', edges, i) {
      BeatenAt(used, mate, edges, k, i);
      StillBeaten(mate, mate', edges, k, i);
    }
    forall u: nat | u < |used'| && used'[u] && u != edges[k].0 && u != edges[k].1 ensures UsedBy(mate', edges, k + 1, u) {
      UsedAt(used, mate, edges, k, u);
      UsedLonger(mate, mate', edges, k, u);
    }
    MakeGreedily(used', mate', edges, k);
  }

  lemma KeptAlong(used: seq<bool>, mate: seq<nat>, mate': seq<nat>, taken: (nat, nat), e: (nat, nat))
    requires |used| == |mate| == |mate'| && Along(mate, e)
    requires taken.0 < |used| && taken.1 < |used| && !used[taken.0] && !used[taken.1]
    requires forall u: nat :: u < |used| && u != taken.0 && u != taken.1 ==> mate'[u] == mate[u]
    requires forall u: nat :: u < |used| && mate[u] < |used| ==> used[u]
    ensures Along(mate', e)
  {}

  lemma JustAlong(mate: seq<nat>, edges: seq<(nat, nat)>, k: nat)
    requires k < |edges| && edges[k].0 < |mate| && edges[k].1 < |mate| && mate[edges[k].0] == edges[k].1
    ensures Beaten(mate, edges, k) && UsedBy(mate, edges, k + 1, edges[k].0) && UsedBy(mate, edges, k + 1, edges[k].1)
  {
    assert Along(mate, edges[k]) && Touches(edges[k], edges[k]);
  }

  lemma BeatenAt(used: seq<bool>, mate: seq<nat>, edges: seq<(nat, nat)>, k: nat, i: nat)
    requires i < k <= |edges| && Greedily(used, mate, edges, k)
    ensures Beaten(mate, edges, i)
  {}

  lemma UsedAt(used: seq<bool>, mate: seq<nat>, edges: seq<(nat, nat)>, k: nat, u: nat)
    requires k <= |edges| && u < |used| && used[u] && Greedily(used, mate, edges, k)
    ensures UsedBy(mate, edges, k, u)
  {}

  lemma MakeGreedily(used: seq<bool>, mate: seq<nat>, edges: seq<(nat, nat)>, k: nat)
    requires k < |edges| && Beaten(mate, edges, k) && forall i: nat :: i < k ==> Beaten(mate, edges, i)
    requires UsedBy(mate, edges, k + 1, edges[k].0) && UsedBy(mate, edges, k + 1, edges[k].1)
    requires forall u: nat :: u < |used| && used[u] && u != edges[k].0 && u != edges[k].1 ==> UsedBy(mate, edges, k + 1, u)
    ensures Greedily(used, mate, edges, k + 1)
  {
    hide UsedBy, Beaten;
  }

  lemma AllEdges(m: Matching, edges: seq<(nat, nat)>)
    requires m.Valid() && m.used.Length == m.n == m.mate.Length && Greedily(m.used[..], m.mate[..], edges, |edges|)
    ensures forall i: nat :: i < |edges| ==> Beaten(m.mate[..], edges, i)
    ensures forall u: nat :: u < m.n && m.used[u] ==> (u, m.mate[u]) in edges || (m.mate[u], u) in edges
  {
    hide Beaten;
    forall u: nat | u < m.n && m.used[u] ensures (u, m.mate[u]) in edges || (m.mate[u], u) in edges {
      assert UsedBy(m.mate[..], edges, |edges|, u);
      var j: nat :| j < |edges| && Along(m.mate[..], edges[j]) && (edges[j].0 == u || edges[j].1 == u);
      assert edges[j] == (edges[j].0, edges[j].1) && edges[j] in edges;
    }
  }

  // ------------------------------------------------------------ slots

  /** Slots 2i and 2i + 1 hold mates, over the whole list. */
  ghost predicate PairedUp(order: seq<nat>, mate: seq<nat>) {
    && |order| % 2 == 0 && Below(order, |mate|)
    && forall i :: 0 <= i < |order| && i % 2 == 0 ==> mate[order[i]] == order[i + 1]
  }

  /** The lower id of each pair comes first, and the pairs are in the order of their lower ids, all below `u`. */
  ghost predicate LowestFirst(order: seq<nat>, u: nat) {
    && (forall i :: 0 <= i && 2 * i + 1 < |order| ==> order[2 * i] < order[2 * i + 1] && order[2 * i] < u)
    && (forall i, j :: 0 <= i < j && 2 * j < |order| ==> order[2 * i] < order[2 * j])
  }

  /** The ids with a mate that the slot loop has reached, from either end of the pair. */
  ghost predicate Reached(mate: seq<nat>, u: nat, v: nat) {
    v < |mate| && mate[v] != UNSET && (v < u || mate[v] < u)
  }

  ghost predicate Involution(mate: seq<nat>) {
    && |mate| <= UNSET
    && forall v: nat :: v < |mate| && mate[v] != UNSET ==> mate[v] < |mate| && mate[v] != v && mate[mate[v]] == v
  }

  lemma TwoMore(order: seq<nat>, mate: seq<nat>, u: nat)
    requires PairedUp(order, mate) && Involution(mate) && u < |mate| && mate[u] != UNSET
    requires forall v: nat :: v in order <==> Reached(mate, u, v)
    requires u < mate[u] && LowestFirst(order, u)
    ensures u !in order && mate[u] !in order + [u]
    ensures LowestFirst(order + [u] + [mate[u]], u + 1)
    ensures PairedUp(order + [u] + [mate[u]], mate)
    ensures forall v: nat :: v in order + [u] + [mate[u]] <==> Reached(mate, u + 1, v)
  {
    assert !Reached(mate, u, u) && !Reached(mate, u, mate[u]);
    var r := order + [u] + [mate[u]];
    forall v: nat ensures v in r <==> Reached(mate, u + 1, v) {
      assert v in r <==> v in order || v == u || v == mate[u];
      if v < |mate| && mate[v] == u { assert mate[mate[v]] == v; }
    }
  }

  /** Slots: each pair gets the next two, then everyone else in id order. */
  method AssignSlots(m: Matching) returns (num: Numberer, ghost pairs: seq<nat>)
    requires m.Valid()
    ensures fresh(num) && fresh(num.newToOld) && fresh(num.oldToNew) && num.n == m.n == num.oldToNew.Length
    ensures Renumbering(num.newToOld[..], num.oldToNew[..])
    ensures PairedUp(pairs, m.mate[..]) && (forall v: nat :: v in pairs <==> v < m.n && m.mate[v] != UNSET)
    ensures LowestFirst(pairs, m.n)
    ensures pairs <= num.newToOld[..] && InIdOrder(num.newToOld[..][|pairs|..]) && num.newToOld[..] == Rest(pairs, 0, m.n)
  {
    num := new Numberer(m.n);
    ghost var mate := m.mate[..];
    NoPairs(mate);
    hide LowestFirst, PairedUp, Reached, Rest, InIdOrder;
    for u := 0 to m.n
      invariant fresh(num) && fresh(num.newToOld) && fresh(num.oldToNew) && num.n == m.n && num.Valid()
      invariant mate == m.mate[..] && Involution(mate) && PairedUp(num.Order(), mate) && LowestFirst(num.Order(), u)
      invariant forall v: nat :: v in num.Order() <==> Reached(mate, u, v)
    {
      if m.mate[u] == UNSET || m.mate[u] == u || u > m.mate[u] {
        StillReached(mate, num.Order(), u);
        continue;
      }
      TwoMore(num.Order(), mate, u);
      var _ := num.Assign(u);
      var _ := num.Assign(m.mate[u]);
    }
    pairs := num.Order();
    AllReached(mate);
    num.AssignRest();
  }

  lemma NoPairs(mate: seq<nat>)
    ensures PairedUp([], mate) && LowestFirst([], 0) && forall v: nat :: !Reached(mate, 0, v)
  {}

  lemma AllReached(mate: seq<nat>)
    ensures forall v: nat :: Reached(mate, |mate|, v) <==> v < |mate| && mate[v] != UNSET
  {}

  lemma StillReached(mate: seq<nat>, order: seq<nat>, u: nat)
    requires Involution(mate) && LowestFirst(order, u) && u < |mate| && (mate[u] == UNSET || mate[u] <= u)
    ensures LowestFirst(order, u + 1)
    ensures forall v: nat :: Reached(mate, u + 1, v) <==> Reached(mate, u, v)
  {
    forall v: nat ensures Reached(mate, u + 1, v) <==> Reached(mate, u, v) {
      if v < |mate| && mate[v] == u { assert mate[mate[v]] == v; }
    }
  }

  /** Mates end up in one slot pair: `s / 2` is the page at two records a page. */
  lemma MatesShare(pairs: seq<nat>, mate: seq<nat>, newToOld: seq<nat>, oldToNew: seq<nat>, v: nat)
    requires Renumbering(newToOld, oldToNew) && pairs <= newToOld && PairedUp(pairs, mate) && Involution(mate)
    requires v in pairs && |mate| == |newToOld|
    ensures v < |mate| && mate[v] < |mate| && v != mate[v]
    ensures oldToNew[v] / 2 == oldToNew[mate[v]] / 2 && oldToNew[v] != oldToNew[mate[v]]
  {
    var i: nat :| i < |pairs| && pairs[i] == v;
    assert newToOld[i] == v;
    var j := if i % 2 == 0 then i else i - 1;
    assert pairs[j] == newToOld[j] && pairs[j + 1] == newToOld[j + 1] && mate[pairs[j]] == pairs[j + 1];
    assert j % 2 == 0 && mate[pairs[j]] != UNSET && mate[mate[pairs[j]]] == pairs[j];
  }
}
