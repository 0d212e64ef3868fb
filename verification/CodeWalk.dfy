/**
 The loop of `load_codes` (serving/pq_table.hpp) as steps: which rows it visits
 and marks, when it ends and how.  The rows themselves are in `PqTables`.
 */
module CodeWalks {
  import opened Common
  import opened Counting

  /** The row `new_to_old` names; a number out of range stays where it is. */
  function Next(p: seq<nat>, x: nat): nat {
    if x < |p| then p[x] else x
  }

  /** The row reached from `x` after `k` steps. */
  function Walk(p: seq<nat>, x: nat, k: nat): nat {
    if k == 0 then x else Next(p, Walk(p, x, k - 1))
  }

  /** The walk from `x` is back at `x`, or has left the range, after `k` steps. */
  ghost predicate BackAt(p: seq<nat>, x: nat, k: nat) {
    k > 0 && Walk(p, x, k) == x
  }

  ghost predicate OutAt(p: seq<nat>, x: nat, k: nat) {
    Walk(p, x, k) >= |p|
  }

  ghost predicate Returns(p: seq<nat>, x: nat) {
    x < |p| && exists k: nat :: BackAt(p, x, k)
  }

  ghost predicate Leaves(p: seq<nat>, x: nat) {
    exists k: nat :: OutAt(p, x, k)
  }

  /** Every start before the first row whose walk leaves the range comes back. */
  ghost predicate Ending(p: seq<nat>) {
    forall i: nat :: i < |p| ==> Returns(p, i) || exists j: nat :: j <= i && Leaves(p, j)
  }

  /** What is done with row `i`, between two rows or inside a cycle; the marks are the rows seen. */
  datatype Loop = Turn(i: nat, marks: set<nat>) | Inside(i: nat, cur: nat, marks: set<nat>) | Halted(ok: bool)

  function Step(p: seq<nat>, s: Loop): Loop {
    match s
    case Turn(i, marks) =>
      if i >= |p| then Halted(true) else if i in marks then Turn(i + 1, marks) else Inside(i, i, marks)
    case Inside(i, cur, marks) =>
      var src := Next(p, cur);
      if src >= |p| then Halted(false)
      else if src == i then Turn(i + 1, marks + {cur})
      else Inside(i, src, marks + {cur})
    case Halted(_) => s
  }

  function Run(p: seq<nat>, s: Loop, k: nat): Loop {
    if k == 0 then s else Step(p, Run(p, s, k - 1))
  }

  lemma {:induction false} RunAdd(p: seq<nat>, s: Loop, a: nat, b: nat)
    ensures Run(p, Run(p, s, a), b) == Run(p, s, a + b)
  {
    if b > 0 { RunAdd(p, s, a, b - 1); }
  }

  lemma {:induction false} StaysHalted(p: seq<nat>, s: Loop, a: nat, k: nat)
    requires Run(p, s, a).Halted? && a <= k
    ensures Run(p, s, k) == Run(p, s, a)
  {
    if a < k { StaysHalted(p, s, a, k - 1); }
  }

  // ------------------------------------------------------------ walks

  lemma {:induction false} WalkAdd(p: seq<nat>, x: nat, a: nat, b: nat)
    ensures Walk(p, Walk(p, x, a), b) == Walk(p, x, a + b)
  {
    if b > 0 { WalkAdd(p, x, a, b - 1); }
  }

  lemma {:induction false} StaysOut(p: seq<nat>, x: nat, a: nat, k: nat)
    requires OutAt(p, x, a) && a <= k
    ensures OutAt(p, x, k)
  {
    if a < k { StaysOut(p, x, a, k - 1); }
  }

  lemma {:induction false} BackAgain(p: seq<nat>, x: nat, a: nat, t: nat)
    requires BackAt(p, x, a)
    ensures Walk(p, x, t * a) == x
  {
    if t > 0 {
      BackAgain(p, x, a, t - 1);
      WalkAdd(p, x, (t - 1) * a, a);
      assert (t - 1) * a + a == t * a;
    }
  }

  /** No walk both comes back and leaves. */
  lemma NotBoth(p: seq<nat>, x: nat)
    ensures !(Returns(p, x) && Leaves(p, x))
  {
    if Returns(p, x) && Leaves(p, x) {
      var a: nat :| BackAt(p, x, a);
      var b: nat :| OutAt(p, x, b);
      BackAgain(p, x, a, b);
      assert b <= b * a;
      StaysOut(p, x, b, b * a);
    }
  }

  ghost predicate Stops(p: seq<nat>, x: nat, k: nat) {
    BackAt(p, x, k) || OutAt(p, x, k)
  }

  /** `k` is the first time the walk from `x` is back or out. */
  ghost predicate FirstStop(p: seq<nat>, x: nat, k: nat) {
    x < |p| && k > 0 && Stops(p, x, k) && forall j: nat :: 0 < j < k ==> !Stops(p, x, j)
  }

  lemma {:induction false} FindFirst(p: seq<nat>, x: nat, k: nat) returns (f: nat)
    requires x < |p| && Stops(p, x, k)
    ensures FirstStop(p, x, f)
  {
    if j: nat :| 0 < j < k && Stops(p, x, j) { f := FindFirst(p, x, j); } else { f := k; }
  }

  lemma FirstOf(p: seq<nat>, x: nat) returns (f: nat)
    requires x < |p| && (Returns(p, x) || Leaves(p, x))
    ensures FirstStop(p, x, f)
  {
    if Returns(p, x) {
      var a: nat :| BackAt(p, x, a);
      f := FindFirst(p, x, a);
    } else {
      var b: nat :| OutAt(p, x, b);
      f := FindFirst(p, x, b);
    }
  }

  /** The rows `marks` are left by no walk. */
  ghost predicate Sealed(p: seq<nat>, marks: set<nat>) {
    forall j :: j in marks ==> j < |p| && p[j] in marks
  }

  lemma {:induction false} StaysIn(p: seq<nat>, marks: set<nat>, x: nat, k: nat)
    requires Sealed(p, marks) && x in marks
    ensures Walk(p, x, k) in marks
  {
    if k > 0 { StaysIn(p, marks, x, k - 1); }
  }

  lemma StaysFrom(p: seq<nat>, marks: set<nat>, x: nat, b: nat, f: nat)
    requires Sealed(p, marks) && b <= f
    ensures Walk(p, x, b) in marks ==> Walk(p, x, f) in marks
  {
    WalkAdd(p, x, b, f - b);
    if Walk(p, x, b) in marks { StaysIn(p, marks, Walk(p, x, b), f - b); }
  }

  /** A walk that repeats itself repeats all that follows. */
  lemma Repeats(p: seq<nat>, x: nat, a: nat, b: nat, f: nat)
    requires a < b <= f
    ensures Walk(p, x, a) == Walk(p, x, b) && Stops(p, x, f) && f > b ==> Stops(p, x, f - (b - a))
  {
    WalkAdd(p, x, a, f - b);
    WalkAdd(p, x, b, f - b);
    assert a + (f - b) == f - (b - a);
  }

  /** Before its first stop a walk repeats nothing and meets no closed set its start is not in. */
  lemma FreshBefore(p: seq<nat>, marks: set<nat>, x: nat, f: nat, b: nat)
    requires FirstStop(p, x, f) && b < f && Sealed(p, marks) && x !in marks
    ensures Walk(p, x, b) < |p| && Walk(p, x, b) !in marks
    ensures forall a: nat :: a < b ==> Walk(p, x, a) != Walk(p, x, b)
  {
    assert b > 0 ==> !Stops(p, x, b);
    StaysFrom(p, marks, x, b, f);
    forall a: nat | a < b ensures Walk(p, x, a) != Walk(p, x, b) { Repeats(p, x, a, b, f); }
  }

  // ------------------------------------------------------------ one turn

  /** The marks after `k` rows of the cycle from `x`. */
  function Traced(p: seq<nat>, x: nat, marks: set<nat>, k: nat): set<nat> {
    marks + set j: nat | j < k :: Walk(p, x, j)
  }

  lemma TracedMore(p: seq<nat>, x: nat, marks: set<nat>, k: nat)
    ensures Traced(p, x, marks, 0) == marks
    ensures Traced(p, x, marks, k + 1) == Traced(p, x, marks, k) + {Walk(p, x, k)}
  {}

  lemma {:induction false} WhileInside(p: seq<nat>, x: nat, marks: set<nat>, k: nat)
    requires x < |p| && x !in marks && forall j: nat :: 0 < j <= k ==> !Stops(p, x, j)
    ensures Run(p, Turn(x, marks), k + 1) == Inside(x, Walk(p, x, k), Traced(p, x, marks, k))
  {
    if k == 0 {
      assert Run(p, Turn(x, marks), 1) == Step(p, Run(p, Turn(x, marks), 0));
      TracedMore(p, x, marks, 0);
    } else {
      TracedMore(p, x, marks, k - 1);
      WhileInside(p, x, marks, k - 1);
      assert !Stops(p, x, k);
    }
  }

  /** A turn that ends: back to the next row with the cycle marked, or halted. */
  lemma TurnEnds(p: seq<nat>, x: nat, marks: set<nat>, f: nat)
    requires FirstStop(p, x, f) && x !in marks
    ensures Run(p, Turn(x, marks), f + 1) ==
            if BackAt(p, x, f) then Turn(x + 1, Traced(p, x, marks, f)) else Halted(false)
  {
    WhileInside(p, x, marks, f - 1);
    TracedMore(p, x, marks, f - 1);
  }

  /** A turn whose walk neither comes back nor leaves never ends. */
  lemma TurnStuck(p: seq<nat>, x: nat, marks: set<nat>, k: nat)
    requires x < |p| && x !in marks && !Returns(p, x) && !Leaves(p, x)
    ensures !Run(p, Turn(x, marks), k).Halted?
  {
    if k > 0 {
      assert forall j: nat :: !BackAt(p, x, j) && !OutAt(p, x, j);
      WhileInside(p, x, marks, k - 1);
    }
  }

  /** Every row of a cycle comes back. */
  lemma CycleReturns(p: seq<nat>, x: nat, f: nat, j: nat)
    requires FirstStop(p, x, f) && BackAt(p, x, f) && j < f
    ensures Returns(p, Walk(p, x, j))
  {
    assert j > 0 ==> !Stops(p, x, j);
    WalkAdd(p, x, j, f);
    WalkAdd(p, x, f, j);
    assert BackAt(p, Walk(p, x, j), f);
  }

  lemma TracedClosed(p: seq<nat>, x: nat, marks: set<nat>, f: nat)
    requires FirstStop(p, x, f) && BackAt(p, x, f) && Sealed(p, marks)
    ensures Sealed(p, Traced(p, x, marks, f)) && x in Traced(p, x, marks, f)
  {
    var all := Traced(p, x, marks, f);
    assert Walk(p, x, 0) in all;
    forall y | y in all ensures y < |p| && p[y] in all {
      if y !in marks {
        var j: nat :| j < f && Walk(p, x, j) == y;
        assert j > 0 ==> !Stops(p, x, j);
        assert Walk(p, x, j + 1) == p[y];
      }
    }
  }

  /** The loop has passed the rows below `i`: marked rows, and rows passed, all come back. */
  ghost predicate Passed(p: seq<nat>, i: nat, marks: set<nat>) {
    && i <= |p| && Sealed(p, marks)
    && (forall j :: j in marks ==> Returns(p, j))
    && (forall j: nat :: j < i ==> Returns(p, j))
  }

  lemma PassMarked(p: seq<nat>, i: nat, marks: set<nat>)
    requires Passed(p, i, marks) && i in marks
    ensures Passed(p, i + 1, marks)
  {}

  lemma PassCycle(p: seq<nat>, i: nat, marks: set<nat>, f: nat)
    requires Passed(p, i, marks) && i !in marks && FirstStop(p, i, f) && BackAt(p, i, f)
    ensures Passed(p, i + 1, Traced(p, i, marks, f))
  {
    TracedClosed(p, i, marks, f);
    forall y | y in Traced(p, i, marks, f) ensures Returns(p, y) {
      if y !in marks {
        var j: nat :| j < f && Walk(p, i, j) == y;
        CycleReturns(p, i, f, j);
      }
    }
  }

  /** Some run from `s` halts with `ok`. */
  ghost predicate Halts(p: seq<nat>, s: Loop, ok: bool) {
    exists k: nat :: Run(p, s, k) == Halted(ok)
  }

  ghost predicate NeverHalts(p: seq<nat>, s: Loop) {
    forall k: nat :: !Run(p, s, k).Halted?
  }

  lemma HaltsLater(p: seq<nat>, s: Loop, a: nat, ok: bool)
    ensures Halts(p, Run(p, s, a), ok) ==> Halts(p, s, ok)
    ensures NeverHalts(p, Run(p, s, a)) ==> NeverHalts(p, s)
  {
    hide Run;
    if Halts(p, Run(p, s, a), ok) {
      var k: nat :| Run(p, Run(p, s, a), k) == Halted(ok);
      RunAdd(p, s, a, k);
    }
    if NeverHalts(p, Run(p, s, a)) {
      forall k: nat ensures !Run(p, s, k).Halted? {
        if Run(p, s, k).Halted? {
          StaysHalted(p, s, k, a + k);
          RunAdd(p, s, a, k);
        }
      }
    }
  }

  /** The rows from `i` on: all come back, or one leaves and those before it come back. */
  ghost predicate AllBack(p: seq<nat>, i: nat) {
    forall x: nat :: i <= x < |p| ==> Returns(p, x)
  }

  ghost predicate LeavesAt(p: seq<nat>, i: nat, x: nat) {
    i <= x < |p| && Leaves(p, x) && forall j: nat :: i <= j < x ==> Returns(p, j)
  }

  ghost predicate SomeLeaves(p: seq<nat>, i: nat) {
    exists x: nat :: LeavesAt(p, i, x)
  }

  /** Passing a row that comes back changes neither. */
  lemma PassedOn(p: seq<nat>, i: nat)
    requires i < |p| && Returns(p, i)
    ensures AllBack(p, i) <==> AllBack(p, i + 1)
    ensures SomeLeaves(p, i) <==> SomeLeaves(p, i + 1)
  {
    NotBoth(p, i);
    if x: nat :| LeavesAt(p, i, x) { assert LeavesAt(p, i + 1, x); }
    var n := i + 1;
    if x: nat :| LeavesAt(p, n, x) {
      forall j: nat | i <= j < x ensures Returns(p, j) {}
      assert LeavesAt(p, i, x);
    }
  }

  lemma {:induction false} FromTurn(p: seq<nat>, i: nat, marks: set<nat>)
    requires Passed(p, i, marks)
    ensures AllBack(p, i) ==> Halts(p, Turn(i, marks), true)
    ensures SomeLeaves(p, i) ==> Halts(p, Turn(i, marks), false)
    ensures !AllBack(p, i) && !SomeLeaves(p, i) ==> NeverHalts(p, Turn(i, marks))
    decreases |p| - i
  {
    var s := Turn(i, marks);
    if i == |p| {
      assert Run(p, s, 1) == Step(p, Run(p, s, 0));
      forall x ensures !LeavesAt(p, i, x) {}
    } else if Leaves(p, i) {
      NotBoth(p, i);
      var f := FirstOf(p, i);
      assert !BackAt(p, i, f);
      TurnEnds(p, i, marks, f);
      assert LeavesAt(p, i, i);
    } else if Returns(p, i) {
      PassedOn(p, i);
      if i in marks {
        PassMarked(p, i, marks);
        assert Run(p, s, 1) == Turn(i + 1, marks) by { assert Run(p, s, 1) == Step(p, Run(p, s, 0)); }
        FromTurn(p, i + 1, marks);
        HaltsLater(p, s, 1, true);
        HaltsLater(p, s, 1, false);
      } else {
        var f := FirstOf(p, i);
        assert !OutAt(p, i, f);
        PassCycle(p, i, marks, f);
        TurnEnds(p, i, marks, f);
        FromTurn(p, i + 1, Traced(p, i, marks, f));
        HaltsLater(p, s, f + 1, true);
        HaltsLater(p, s, f + 1, false);
      }
    } else {
      forall k: nat ensures !Run(p, s, k).Halted? { TurnStuck(p, i, marks, k); }
      forall x ensures !LeavesAt(p, i, x) {}
    }
  }

  lemma OneResult(p: seq<nat>, s: Loop)
    ensures !(Halts(p, s, true) && Halts(p, s, false))
    ensures NeverHalts(p, s) ==> !Halts(p, s, true) && !Halts(p, s, false)
  {
    if Halts(p, s, true) && Halts(p, s, false) {
      var a: nat :| Run(p, s, a) == Halted(true);
      var b: nat :| Run(p, s, b) == Halted(false);
      StaysHalted(p, s, a, a + b);
      StaysHalted(p, s, b, a + b);
    }
  }

  /** How the loop comes out, for any map: it succeeds, refuses, or goes on for ever. */
  lemma LoopOutcome(p: seq<nat>)
    ensures Halts(p, Turn(0, {}), true) <==> IsPermutation(p)
    ensures Halts(p, Turn(0, {}), false) <==> SomeLeaves(p, 0)
    ensures NeverHalts(p, Turn(0, {})) <==> !Ending(p)
  {
    FromTurn(p, 0, {});
    OneResult(p, Turn(0, {}));
    AllReturnIffPermutation(p);
    EndingAs(p);
    forall x: nat ensures !(Returns(p, x) && Leaves(p, x)) { NotBoth(p, x); }
  }

  /** `Ending`, by the first row that leaves. */
  lemma EndingAs(p: seq<nat>)
    ensures Ending(p) <==> AllBack(p, 0) || SomeLeaves(p, 0)
  {
    if Ending(p) && !AllBack(p, 0) {
      var i: nat :| i < |p| && !Returns(p, i);
      var j: nat :| j <= i && Leaves(p, j);
      var f := FirstLeaving(p, j);
      assert LeavesAt(p, 0, f);
    }
    if x: nat :| LeavesAt(p, 0, x) {
      forall i: nat | i < |p| ensures Returns(p, i) || exists j: nat :: j <= i && Leaves(p, j) {
        if x <= i { assert Leaves(p, x); }
      }
    }
  }

  lemma {:induction false} FirstLeaving(p: seq<nat>, j: nat) returns (f: nat)
    requires Ending(p) && j < |p| && Leaves(p, j)
    ensures f <= j && Leaves(p, f) && forall i: nat :: i < f ==> Returns(p, i)
  {
    if i: nat :| i < j && Leaves(p, i) { f := FirstLeaving(p, i); } else { f := j; }
  }

  // ------------------------------------------------------------ maps whose walks all return

  /** Every walk comes back exactly when the map is a permutation. */
  lemma AllReturnIffPermutation(p: seq<nat>)
    ensures AllBack(p, 0) <==> IsPermutation(p)
  {
    if IsPermutation(p) {
      forall x: nat | x < |p| ensures Returns(p, x) { InjectiveReturns(p, x, [x]); }
    }
    if AllBack(p, 0) { ReturnsInjective(p); }
  }

  /** The walk of a permutation runs out of new rows, and then is back at its start. */
  lemma {:induction false} InjectiveReturns(p: seq<nat>, x: nat, path: seq<nat>)
    requires IsPermutation(p) && x < |p| && path != []
    requires Distinct(path) && forall t :: 0 <= t < |path| ==> path[t] == Walk(p, x, t) && path[t] < |p|
    ensures Returns(p, x)
    decreases |p| - |path|
  {
    var k := |path|;
    var src := Walk(p, x, k);
    assert src == p[path[k - 1]];
    if src == x {
      assert BackAt(p, x, k);
    } else {
      forall t | 0 <= t < k ensures path[t] != src {
        assert t > 0 ==> path[t] == p[path[t - 1]];
      }
      DistinctBound(path + [src], |p|);
      InjectiveReturns(p, x, path + [src]);
    }
  }

  lemma ReturnsInjective(p: seq<nat>)
    requires AllBack(p, 0)
    ensures IsPermutation(p)
  {
    forall x: nat | x < |p| ensures x in p && p[x] < |p| {
      assert Returns(p, x);
      var k: nat :| BackAt(p, x, k);
      assert Walk(p, x, k - 1) < |p| ==> p[Walk(p, x, k - 1)] == x;
      assert OutAt(p, x, k - 1) ==> OutAt(p, x, k);
      if p[x] >= |p| {
        assert Walk(p, x, 1) == Next(p, Walk(p, x, 0));
        StaysOut(p, x, 1, k);
        assert false;
      }
    }
    OntoDistinct(p);
  }
  /** A list as long as the range it covers has no repeats. */
  lemma OntoDistinct(p: seq<nat>)
    requires forall x: nat :: x < |p| ==> x in p
    ensures Distinct(p)
  {
    forall i, j | 0 <= i < j < |p| ensures p[i] != p[j] {
      if p[i] == p[j] {
        var q := p[..j] + p[j + 1..];
        forall x: nat | x < |p| ensures x in q {
          assert x in p;
          var t :| 0 <= t < |p| && p[t] == x;
          if t < j { assert q[t] == x; } else if t > j { assert q[t - 1] == x; } else { assert q[i] == x; }
        }
        CoversBound(q, |p|);
      }
    }
  }

  lemma {:induction false} CoversBound(q: seq<nat>, n: nat)
    requires forall x: nat :: x < n ==> x in q
    ensures n <= |q|
  {
    if n > 0 {
      assert (n - 1) as nat in q;
      var t :| 0 <= t < |q| && q[t] == n - 1;
      var r := q[..t] + q[t + 1..];
      forall x: nat | x < n - 1 ensures x in r {
        assert x in q;
        var u :| 0 <= u < |q| && q[u] == x;
        if u < t { assert r[u] == x; } else { assert r[u - 1] == x; }
      }
      CoversBound(r, n - 1);
    }
  }

  /** A map whose first row leaves the range is refused there, though two rows share an old one. */
  lemma RefusedAtOnce()
    ensures Ending([5, 1, 1]) && !Distinct<nat>([5, 1, 1])
    ensures Halts([5, 1, 1], Turn(0, {}), false)
  {
    var p: seq<nat> := [5, 1, 1];
    assert p[1] == p[2];
    assert Walk(p, 0, 1) == Next(p, Walk(p, 0, 0));
    assert OutAt(p, 0, 1);
    assert LeavesAt(p, 0, 0);
    LoopOutcome(p);
  }

  /** A map whose last row is led into an earlier cycle: the loop never ends. */
  lemma LedIntoCycle()
    ensures NeverHalts([1, 0, 0], Turn(0, {}))
  {
    var p: seq<nat> := [1, 0, 0];
    forall k: nat ensures Walk(p, 2, k) == 2 ==> k == 0 { StaysIn01(p, k); }
    LoopOutcome(p);
    assert p[1] == p[2];
    forall x: nat | x < 3 ensures !Leaves(p, x) { forall k: nat ensures !OutAt(p, x, k) { StaysIn(p, {0, 1, 2}, x, k); } }
    assert !Returns(p, 2);
  }

  lemma {:induction false} StaysIn01(p: seq<nat>, k: nat)
    requires p == [1, 0, 0]
    ensures k > 0 ==> Walk(p, 2, k) < 2
  {
    if k > 1 { StaysIn01(p, k - 1); } else if k == 1 { assert Walk(p, 2, 1) == Next(p, Walk(p, 2, 0)); }
  }
}
