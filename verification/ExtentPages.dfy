/** Extent mode of tools/remap_diskann_pages.cpp: whole pages move, so records that shared a page still do. */
module ExtentPages {
  import opened Common
  import opened Counting
  import opened Numberers
  import opened BundleSpec
  import opened Relabel

  function PageCount(n: nat): nat { (n + 1) / 2 }

  /** The pages of one run that are not placed yet take the next places. */
  function PackRun(np: nat, order: seq<nat>, run: seq<nat>): seq<nat> {
    if run == [] then order
    else
      var o := PackRun(np, order, run[..|run| - 1]);
      var p := run[|run| - 1];
      if p >= np then o else WithNew(o, p)
  }

  function PackAll(np: nat, runs: seq<seq<nat>>): seq<nat> {
    if runs == [] then [] else PackRun(np, PackAll(np, runs[..|runs| - 1]), runs[|runs| - 1])
  }

  /** The still free pages of a run become one contiguous stretch. */
  lemma {:induction false} RunContiguous(np: nat, order: seq<nat>, run: seq<nat>)
    requires NoRepeat(np, run)
    ensures PackRun(np, order, run) == order + FreeOf(np, run, order)
  {
    if run != [] {
      var init, p := run[..|run| - 1], run[|run| - 1];
      RunContiguous(np, order, init);
      FreeMembers(np, init, order);
      assert p < np ==> p !in init;
    }
  }

  lemma {:induction false} PackGrows(np: nat, order: seq<nat>, run: seq<nat>)
    ensures order <= PackRun(np, order, run)
  {
    if run != [] { PackGrows(np, order, run[..|run| - 1]); }
  }

  /**
   Over all the runs: what the earlier runs placed stands first, then in one
   stretch the pages of this run that were still free, then everything later.
   */
  lemma {:induction false} RunsInTurn(np: nat, runs: seq<seq<nat>>, i: nat)
    requires i < |runs| && NoRepeat(np, runs[i])
    ensures PackAll(np, runs[..i]) + FreeOf(np, runs[i], PackAll(np, runs[..i])) <= PackAll(np, runs)
  {
    var n := |runs| - 1;
    if i == n {
      RunContiguous(np, PackAll(np, runs[..i]), runs[i]);
    } else {
      assert runs[..n][..i] == runs[..i];
      RunsInTurn(np, runs[..n], i);
      PackGrows(np, PackAll(np, runs[..n]), runs[n]);
    }
  }

  function NewSlot(pageNew: seq<nat>, s: nat): nat
    requires s / 2 < |pageNew|
  {
    pageNew[s / 2] * 2 + s % 2
  }

  /** The new slot of every id, once the slots read in are known to be in range. */
  function NewSlots(pageNew: seq<nat>, idToSlot: seq<nat>): (r: seq<nat>)
    requires |pageNew| == PageCount(|idToSlot|) && Below(idToSlot, |idToSlot|)
  {
    seq(|idToSlot|, id requires 0 <= id < |idToSlot| => NewSlot(pageNew, idToSlot[id]))
  }

  method PlaceRun(num: Numberer, run: seq<nat>)
    requires num.Valid()
    modifies num, num.newToOld, num.oldToNew
    ensures num.Valid() && num.Order() == PackRun(num.n, old(num.Order()), run)
  {
    ghost var was := num.Order();
    for i := 0 to |run|
      invariant num.Valid() && num.Order() == PackRun(num.n, was, run[..i])
    {
      assert run[..i + 1][..i] == run[..i];
      if run[i] < num.n { var _ := num.Assign(run[i]); }
    }
    assert run[..|run|] == run;
  }

  /** Runs first, then the remaining pages in order; refused when a slot is out of range. */
  method ExtentMap(idToSlot: seq<nat>, runs: seq<seq<nat>>) returns (r: Option<seq<nat>>, num: Numberer)
    requires |idToSlot| <= UNSET
    ensures fresh(num) && fresh(num.newToOld) && fresh(num.oldToNew)
    ensures r.None? <==> exists id :: 0 <= id < |idToSlot| && idToSlot[id] >= |idToSlot|
    ensures r.Some? ==>
      && num.newToOld[..] == Rest(PackAll(PageCount(|idToSlot|), runs), 0, PageCount(|idToSlot|))
      && Renumbering(num.newToOld[..], num.oldToNew[..]) && num.oldToNew.Length == PageCount(|idToSlot|)
      && Below(idToSlot, |idToSlot|) && r.value == NewSlots(num.oldToNew[..], idToSlot)
  {
    var n := |idToSlot|;
    num := new Numberer(PageCount(n));
    for id := 0 to n
      invariant forall j :: 0 <= j < id ==> idToSlot[j] < n
    {
      if idToSlot[id] >= n { return None, num; }
    }
    hide PackAll, Rest, Renumbering;
    PlaceRuns(num, runs);
    num.AssignRest();
    var slots := MapSlots(num, idToSlot);
    return Some(slots), num;
  }

  method PlaceRuns(num: Numberer, runs: seq<seq<nat>>)
    requires num.Valid() && num.Order() == []
    modifies num, num.newToOld, num.oldToNew
    ensures num.Valid() && num.Order() == PackAll(num.n, runs)
  {
    for i := 0 to |runs|
      invariant num.Valid() && num.Order() == PackAll(num.n, runs[..i])
    {
      assert runs[..i + 1][..i] == runs[..i];
      PlaceRun(num, runs[i]);
    }
    assert runs[..|runs|] == runs;
  }

  method MapSlots(num: Numberer, idToSlot: seq<nat>) returns (slots: seq<nat>)
    requires num.Valid() && num.n == PageCount(|idToSlot|) && Below(idToSlot, |idToSlot|)
    ensures |num.oldToNew[..]| == PageCount(|idToSlot|) && slots == NewSlots(num.oldToNew[..], idToSlot)
  {
    ghost var pages := num.oldToNew[..];
    slots := [];
    for id := 0 to |idToSlot|
      invariant |slots| == id && forall j :: 0 <= j < id ==> slots[j] == NewSlot(pages, idToSlot[j])
    {
      slots := slots + [num.oldToNew[idToSlot[id] / 2] * 2 + idToSlot[id] % 2];
    }
  }

  /** Two ids share a page afterwards exactly when they did before. */
  lemma KeepsMates(pageOld: seq<nat>, pageNew: seq<nat>, idToSlot: seq<nat>, a: nat, b: nat)
    requires Renumbering(pageOld, pageNew) && |pageNew| == PageCount(|idToSlot|) && Below(idToSlot, |idToSlot|)
    requires a < |idToSlot| && b < |idToSlot|
    ensures var r := NewSlots(pageNew, idToSlot); r[a] / 2 == r[b] / 2 <==> idToSlot[a] / 2 == idToSlot[b] / 2
  {
    assert pageOld[pageNew[idToSlot[a] / 2]] == idToSlot[a] / 2 && pageOld[pageNew[idToSlot[b] / 2]] == idToSlot[b] / 2;
  }

  /**
   Moving pages keeps the slots a bijection exactly when every page is full,
   or the half-full last page stays last.
   */
  lemma BijectiveIffLastStays(pageOld: seq<nat>, pageNew: seq<nat>, idToSlot: seq<nat>)
    requires Renumbering(pageOld, pageNew) && |pageNew| == PageCount(|idToSlot|) && IsPermutation(idToSlot)
    ensures IsPermutation(NewSlots(pageNew, idToSlot)) <==>
            |idToSlot| % 2 == 0 || pageNew[|pageNew| - 1] == |pageNew| - 1
  {
    var n, np := |idToSlot|, |pageNew|;
    var r := NewSlots(pageNew, idToSlot);
    if n % 2 == 0 || pageNew[np - 1] == np - 1 {
      forall id | 0 <= id < n ensures r[id] < n {
        assert pageOld[pageNew[idToSlot[id] / 2]] == idToSlot[id] / 2;
      }
      forall a, b | 0 <= a < b < n ensures r[a] != r[b] {
        if r[a] == r[b] { SameSlot(pageOld, pageNew, idToSlot[a], idToSlot[b]); }
      }
    } else {
      var p := pageOld[np - 1];
      assert pageNew[p] == np - 1 && p < np - 1;
      var id := PermutationOnto(idToSlot, 2 * p + 1);
      assert r[id] == n;
    }
  }

  /** Three records on two pages: moving the half-full page first sends a record to a fourth slot. */
  lemma HalfPageMoved()
    ensures Renumbering([1, 0], [1, 0]) && IsPermutation([0, 1, 2])
    ensures NewSlots([1, 0], [0, 1, 2]) == [2, 3, 0] && !IsPermutation(NewSlots([1, 0], [0, 1, 2]))
  {
    assert NewSlots([1, 0], [0, 1, 2])[1] == 3;
  }

  lemma SameSlot(pageOld: seq<nat>, pageNew: seq<nat>, s: nat, t: nat)
    requires Renumbering(pageOld, pageNew) && s / 2 < |pageNew| && t / 2 < |pageNew| && NewSlot(pageNew, s) == NewSlot(pageNew, t)
    ensures s == t
  {
    assert pageNew[s / 2] == pageNew[t / 2];
    assert pageOld[pageNew[s / 2]] == s / 2 && pageOld[pageNew[t / 2]] == t / 2;
  }
}
