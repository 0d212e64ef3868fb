/** The pair of arrays every layout tool fills: old ids in their new order, and back. */
module Numberers {
  import opened Common
  import opened Counting
  import opened Relabel

  /** The mark for "no new id yet". */
  const UNSET: nat := 0xFFFF_FFFF

  ghost predicate Below(s: seq<nat>, n: nat) {
    forall i :: 0 <= i < |s| ==> s[i] < n
  }

  /** `u` takes the next number unless it has one. */
  function WithNew(order: seq<nat>, u: nat): seq<nat> {
    if u in order then order else order + [u]
  }

  /** The numbers `u..n` in turn. */
  function Rest(order: seq<nat>, u: nat, n: nat): seq<nat>
    decreases n - u
  {
    if u >= n then order else Rest(WithNew(order, u), u + 1, n)
  }

  ghost predicate InIdOrder(s: seq<nat>) {
    forall i, j :: 0 <= i < j < |s| ==> s[i] < s[j]
  }

  lemma FrontInOrder(u: nat, s: seq<nat>)
    requires InIdOrder(s) && forall v :: v in s ==> u < v
    ensures InIdOrder([u] + s)
  {
    forall j | 0 <= j < |s| ensures u < s[j] { assert s[j] in s; }
  }

  /** What is added comes in increasing order. */
  lemma {:induction false} RestInOrder(order: seq<nat>, u: nat, n: nat)
    requires u <= n
    ensures order <= Rest(order, u, n) && InIdOrder(Rest(order, u, n)[|order|..])
    ensures forall v :: v in Rest(order, u, n)[|order|..] ==> u <= v
    decreases n - u
  {
    if u < n {
      var more := WithNew(order, u);
      RestInOrder(more, u + 1, n);
      var r := Rest(order, u, n);
      hide InIdOrder;
      assert order <= more <= r;
      if u !in order {
        assert r[|order|] == more[|order|] == u;
        assert r[|order|..] == [u] + r[|more|..];
        FrontInOrder(u, r[|more|..]);
      }
    } else {
      assert order[|order|..] == [];
    }
  }

  lemma {:induction false} RestAll(order: seq<nat>, u: nat, n: nat)
    requires u <= n && Distinct(order) && Below(order, n) && forall v: nat :: v < u ==> v in order
    ensures var r := Rest(order, u, n);
      Distinct(r) && Below(r, n) && |r| == n && order <= r
    decreases n - u
  {
    if u < n {
      RestAll(WithNew(order, u), u + 1, n);
    } else {
      DistinctBound(order, n);
      DistinctCard(order);
      var s := set x | x in order;
      NoMoreThan(s, n);
    }
  }

  /** A set with every number below `n` has at least `n` members. */
  lemma {:induction false} NoMoreThan(s: set<nat>, n: nat)
    requires forall v: nat :: v < n ==> v in s
    ensures n <= |s|
  {
    if n > 0 { NoMoreThan(s - {n - 1}, n - 1); }
  }

  /** A distinct list short of `n` numbers below `n` has room for one more. */
  lemma RoomFor(order: seq<nat>, u: nat, n: nat)
    requires Distinct(order) && Below(order, n) && u < n && u !in order
    ensures |order| < n
  {
    DistinctBound(order + [u], n);
  }

  class Numberer {
    const n: nat
    const newToOld: array<nat>
    const oldToNew: array<nat>
    var given: nat

    ghost predicate Sized()
      reads this
    {
      newToOld.Length == n == oldToNew.Length && newToOld != oldToNew && given <= n <= UNSET
    }

    /** The old ids that have numbers, in number order. */
    ghost function Order(): seq<nat>
      requires Sized()
      reads this, newToOld
    {
      newToOld[..given]
    }

    ghost predicate Valid()
      reads this, newToOld, oldToNew
    {
      && Sized() && Distinct(Order()) && Below(Order(), n)
      && (forall i :: 0 <= i < given ==> oldToNew[newToOld[i]] == i)
      && (forall u: nat :: u < n ==> (oldToNew[u] == UNSET <==> u !in Order()))
    }

    constructor (count: nat)
      requires count <= UNSET
      ensures Valid() && Sized() && Order() == [] && n == count && fresh(newToOld) && fresh(oldToNew)
    {
      n := count;
      newToOld := new nat[count](_ => 0);
      oldToNew := new nat[count](_ => UNSET);
      given := 0;
    }

    /** `assign`: says whether the number is new. */
    method Assign(u: nat) returns (first: bool)
      requires Valid() && u < n
      modifies this, newToOld, oldToNew
      ensures Valid() && Order() == WithNew(old(Order()), u)
      ensures first <==> u !in old(Order())
    {
      if oldToNew[u] != UNSET { return false; }
      ghost var was := Order();
      RoomFor(was, u, n);
      oldToNew[u] := given;
      newToOld[given] := u;
      given := given + 1;
      assert Order() == was + [u];
      return true;
    }

    /** Everything still without a number gets one, in id order. */
    method AssignRest()
      requires Valid()
      modifies this, newToOld, oldToNew
      ensures Valid() && Order() == Rest(old(Order()), 0, n) && given == n
      ensures newToOld[..] == Order() && Renumbering(newToOld[..], oldToNew[..])
      ensures old(Order()) <= newToOld[..] && InIdOrder(newToOld[..][old(|Order()|)..])
    {
      ghost var was := Order();
      RestAll(was, 0, n);
      RestInOrder(was, 0, n);
      for u := 0 to n
        invariant Valid() && Rest(Order(), u, n) == Rest(was, 0, n)
      {
        var _ := Assign(u);
      }
      assert Order() == newToOld[..];
      AllNumbered();
    }

    /** With every number given, the arrays undo each other. */
    lemma AllNumbered()
      requires Valid() && given == n
      ensures Renumbering(newToOld[..], oldToNew[..])
    {
      var p := newToOld[..];
      assert Order() == p;
      forall u: nat | u < n ensures oldToNew[u] < n && p[oldToNew[u]] == u {
        var i := PermutationOnto(p, u);
        assert oldToNew[newToOld[i]] == i;
      }
    }
  }
}
