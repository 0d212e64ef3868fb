/** Counting flags, and the pigeonhole facts the models need. */
module Counting {
  import opened Common

  function Count(s: seq<bool>): nat {
    if s == [] then 0 else Count(s[..|s| - 1]) + (if s[|s| - 1] then 1 else 0)
  }

  lemma {:induction false} CountUpdate(s: seq<bool>, i: nat, b: bool)
    requires i < |s|
    ensures Count(s[i := b]) == Count(s) + (if b then 1 else 0) - (if s[i] then 1 else 0)
  {
    var n := |s| - 1;
    if i == n {
      assert s[i := b][..n] == s[..n];
    } else {
      assert s[i := b][..n] == s[..n][i := b];
      CountUpdate(s[..n], i, b);
    }
  }

  lemma {:induction false} CountBound(s: seq<bool>)
    ensures Count(s) <= |s|
    ensures Count(s) == 0 <==> forall i :: 0 <= i < |s| ==> !s[i]
  {
    if s != [] { CountBound(s[..|s| - 1]); }
  }

  lemma {:induction false} CountNone(n: nat)
    ensures Count(seq(n, _ => false)) == 0
  {
    CountBound(seq(n, _ => false));
  }

  lemma {:induction false} CountFull(s: seq<bool>)
    ensures Count(s) == |s| <==> forall i :: 0 <= i < |s| ==> s[i]
  {
    if s != [] {
      CountFull(s[..|s| - 1]);
      CountBound(s[..|s| - 1]);
    }
  }

  /** Marking a set that grows pointwise never lowers the count. */
  lemma {:induction false} CountMonotone(s: seq<bool>, t: seq<bool>)
    requires |s| == |t| && forall i :: 0 <= i < |s| && s[i] ==> t[i]
    ensures Count(s) <= Count(t)
  {
    if s != [] { CountMonotone(s[..|s| - 1], t[..|t| - 1]); }
  }

  /** Two kinds of flags that together do not reach every index leave one index free of both. */
  lemma {:induction false} FreeIndex(a: seq<bool>, b: seq<bool>) returns (i: nat)
    requires |a| == |b| && Count(a) + Count(b) < |a|
    ensures i < |a| && !a[i] && !b[i]
  {
    var n := |a| - 1;
    if !a[n] && !b[n] { i := n; } else { i := FreeIndex(a[..n], b[..n]); }
  }

  /** Distinct numbers below `n` are at most `n` many. */
  lemma {:induction false} DistinctBound(s: seq<nat>, n: nat)
    requires Distinct(s) && forall i :: 0 <= i < |s| ==> s[i] < n
    ensures |s| <= n
  {
    var marks := set x: nat | x in s;
    DistinctCard(s);
    BelowCard(marks, n);
  }

  lemma {:induction false} DistinctCard<T>(s: seq<T>)
    requires Distinct(s)
    ensures |set x | x in s| == |s|
  {
    if s != [] {
      var n := |s| - 1;
      var t := s[..n];
      DistinctCard(t);
      assert (set x | x in s) == (set x | x in t) + {s[n]};
      assert s[n] !in t;
    }
  }

  lemma {:induction false} BelowCard(m: set<nat>, n: nat)
    requires forall x :: x in m ==> x < n
    ensures |m| <= n
    ensures |m| == n ==> forall x: nat :: x < n ==> x in m
  {
    if n == 0 {
      assert m == {};
    } else {
      var m' := m - {n - 1};
      BelowCard(m', n - 1);
      if n - 1 in m { assert m == m' + {n - 1}; } else { assert m == m'; }
    }
  }

  /** A permutation reaches every number below its length. */
  lemma PermutationOnto(p: seq<nat>, x: nat) returns (i: nat)
    requires IsPermutation(p) && x < |p|
    ensures i < |p| && p[i] == x
  {
    DistinctCard(p);
    var marks := set y: nat | y in p;
    BelowCard(marks, |p|);
    assert x in marks;
    i :| i < |p| && p[i] == x;
  }

  /** Flagged indices with distinct labels below a bound are at most that many. */
  lemma CountNames(flags: seq<bool>, name: map<nat, nat>, bound: nat)
    requires forall i :: 0 <= i < |flags| && flags[i] ==> i in name && name[i] < bound
    requires forall i, j :: 0 <= i < j < |flags| && flags[i] && flags[j] ==> name[i] != name[j]
    ensures Count(flags) <= bound
  {
    var t := NameSet(flags, name);
    BelowCard(t, bound);
  }

  lemma {:induction false} NameSet(flags: seq<bool>, name: map<nat, nat>) returns (t: set<nat>)
    requires forall i :: 0 <= i < |flags| && flags[i] ==> i in name
    requires forall i, j :: 0 <= i < j < |flags| && flags[i] && flags[j] ==> name[i] != name[j]
    ensures |t| == Count(flags)
    ensures forall x :: x in t <==> exists i :: 0 <= i < |flags| && flags[i] && name[i] == x
  {
    if flags == [] {
      t := {};
    } else {
      var n := |flags| - 1;
      var f := flags[..n];
      var t0 := NameSet(f, name);
      t := if flags[n] then t0 + {name[n]} else t0;
      forall x ensures x in t <==> exists i :: 0 <= i < |flags| && flags[i] && name[i] == x {
        if x in t0 {
          var i :| 0 <= i < |f| && f[i] && name[i] == x;
          assert flags[i];
        }
        if i :| 0 <= i < |flags| && flags[i] && name[i] == x {
          if i < n { assert f[i]; }
        }
      }
    }
  }
}
