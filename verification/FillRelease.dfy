/**
 Giving fills back away from the window (`release_tok`, `release_pages` in
 serving/hide_fill.hpp): neither looks at the flags, so whether the fill
 protocol survives depends on the state they find.
 */
module FillRelease {
  import opened Counting
  import opened WindowSpec
  import opened WindowProofs
  import opened PipeSpec
  import opened PipeProofs

  /** The slots filled under this token. */
  function WithTok(p: Pipe, m: Mode, tok: nat): (r: seq<bool>)
    ensures |r| == |p.slots|
  {
    seq(|p.slots|, s requires 0 <= s < |p.slots| => !m.WindowMode? && tok != 0 && p.slots[s].active && p.slots[s].tok == tok)
  }

  /** The slots that list every needed page; they may list more. */
  function Owning(p: Pipe, m: Mode, need: seq<nat>): (r: seq<bool>)
    ensures |r| == |p.slots|
  {
    seq(|p.slots|, s requires 0 <= s < |p.slots| => !m.WindowMode? && need != [] && Lists(p.slots[s], need))
  }

  predicate Lists(sl: Slot, need: seq<nat>) {
    sl.active && sl.pages != [] && forall q :: q in need ==> q in sl.pages
  }

  function ClearSome(p: Pipe, sel: seq<bool>): Pipe
    requires |sel| == |p.slots|
  {
    p.(slots := seq(|p.slots|, s requires 0 <= s < |p.slots| => if sel[s] then Cleared(p.slots[s]) else p.slots[s]))
  }

  /** All flags of the slot are up. */
  ghost predicate Complete(p: Pipe, s: nat) {
    s < |p.slots| && forall i: nat :: i < |p.slots[s].pages| ==> EntryReady(p, s, i)
  }

  function UpTo(sel: seq<bool>, n: nat): (r: seq<bool>)
    ensures |r| == |sel|
  {
    seq(|sel|, s requires 0 <= s < |sel| => s < n && sel[s])
  }

  lemma {:induction false} ClearKeeps(c: Config, m: Mode, p: Pipe, sel: seq<bool>, n: nat)
    requires PipeInv(c, m, p) && |sel| == |p.slots| && !m.WindowMode? && n <= |sel|
    requires forall s: nat :: s < |sel| && sel[s] ==> p.slots[s].active && Complete(p, s)
    ensures PipeInv(c, m, ClearSome(p, UpTo(sel, n)))
  {
    if n == 0 {
      assert ClearSome(p, UpTo(sel, 0)).slots == p.slots;
    } else {
      ClearKeeps(c, m, p, sel, n - 1);
      var q := ClearSome(p, UpTo(sel, n - 1));
      var r := ClearSome(p, UpTo(sel, n));
      hide PipeInv;
      if sel[n - 1] {
        assert q.slots[n - 1] == p.slots[n - 1] && r.slots == q.slots[n - 1 := Cleared(q.slots[n - 1])];
        NotDirect(c, m, q, n - 1);
        var s: nat := n - 1;
        forall i: nat | i < |q.slots[s].pages| ensures EntryReady(q, s, i) { assert EntryReady(p, s, i); }
        ClearSlotKeeps(c, m, q, s);
      } else {
        assert r.slots == q.slots;
      }
    }
  }

  lemma NotDirect(c: Config, m: Mode, p: Pipe, s: nat)
    requires PipeInv(c, m, p) && s < |p.slots| && p.slots[s].active && !m.WindowMode?
    ensures !p.slots[s].direct
  {
    hide Valid, OwnersOk, JobsOk, Progress;
    assert SlotOk(c, m, p.slots[s]);
  }

  /** Giving back active fills keeps the protocol exactly when every one of them is complete: otherwise a job goes on writing to a slot that is gone. */
  lemma ReleaseExact(c: Config, m: Mode, p: Pipe, sel: seq<bool>)
    requires PipeInv(c, m, p) && |sel| == |p.slots| && !m.WindowMode?
    requires forall s: nat :: s < |sel| && sel[s] ==> p.slots[s].active
    ensures PipeInv(c, m, ClearSome(p, sel)) <==> forall s: nat :: s < |sel| && sel[s] ==> Complete(p, s)
  {
    hide PipeInv, Complete, ClearSome, EntryReady;
    if forall s: nat :: s < |sel| && sel[s] ==> Complete(p, s) {
      ClearKeeps(c, m, p, sel, |sel|);
      assert UpTo(sel, |sel|) == sel;
    } else {
      var s: nat :| s < |sel| && sel[s] && !Complete(p, s);
      EarlyBreaks(c, m, p, sel, s);
    }
  }

  lemma EarlyBreaks(c: Config, m: Mode, p: Pipe, sel: seq<bool>, s: nat)
    requires PipeInv(c, m, p) && |sel| == |p.slots| && s < |sel| && sel[s] && p.slots[s].active && !Complete(p, s)
    ensures !PipeInv(c, m, ClearSome(p, sel))
  {
    hide Valid, OwnersOk, Delivered;
    var i: nat :| i < |p.slots[s].pages| && !EntryReady(p, s, i);
    assert SlotOk(c, m, p.slots[s]) && Entry(p, s, i);
    assert Covered(p, s, i);
    var id :| id in p.jobs && Covers(p.jobs[id], s, i);
    var q := ClearSome(p, sel);
    assert !q.slots[s].active && !JobOk(c, m, q, q.jobs[id]);
  }

  // ------------------------------------------------------------ a state in which it happens

  ghost const SMALL: Config := Config([7, 8], 1, 0, 0, 0, false)

  function Lent(): Slot {
    Slot([0, 1], [[7], [0]], [], [true, false], [false, false], 0, 0, true, false, 1)
  }

  function IdleSlot(): Slot {
    Slot([], [], [], [], [], 0, 0, false, false, 0)
  }

  /** One fill of two pages, the first ready, a job still on the second. */
  function HalfDone(): Pipe {
    Pipe([Lent()] + seq(31, _ => IdleSlot()), map[0 := Job(0, 1, 1, Writing)], 1, 2, map[],
         Win(map[], [], [], [], [], [], {}, 0, 0, 0, []))
  }

  lemma HalfDoneOk()
    ensures PipeInv(SMALL, Bounce, HalfDone())
  {
    var p := HalfDone();
    assert p.slots[0] == Lent() && forall s :: 0 < s < 32 ==> p.slots[s] == IdleSlot();
    assert Valid(SMALL, p.win);
    LentOk();
    hide Valid, SlotOk, Lent, IdleSlot;
    LentFlags();
    assert JobOk(SMALL, Bounce, p, p.jobs[0]);
    forall s: nat, i: nat | Entry(p, s, i) && i < |p.slots[s].ready| && !p.slots[s].ready[i] ensures Covered(p, s, i) {
      assert Covers(p.jobs[0], 0, 1);
    }
  }

  lemma LentOk()
    ensures SlotOk(SMALL, Bounce, Lent()) && SlotOk(SMALL, Bounce, IdleSlot())
  {
    assert IsPage(SMALL, 0) && IsPage(SMALL, 1) && PageAt(SMALL, 0) == [7];
    CountBound([false, false]);
  }

  lemma LentFlags()
    ensures var l := Lent(); l.active && !l.direct && l.ready == [true, false] && |l.pages| == 2 && !IdleSlot().active
  {}

  /**
   A query that needs only the first page is covered, and giving its pages back
   takes the slot from under the job that is still writing the second.
   */
  lemma BorrowedPageReleased()
    ensures var p := HalfDone();
      && PipeInv(SMALL, Bounce, p) && EntryReady(p, 0, 0) && p.slots[0].pages[0] == 0
      && Owning(p, Bounce, [0])[0] && !Complete(p, 0)
      && !PipeInv(SMALL, Bounce, ClearSome(p, Owning(p, Bounce, [0])))
  {
    HalfDoneOk();
    var p := HalfDone();
    assert p.slots[0] == Lent();
    assert 0 in [0, 1];
    assert Owning(p, Bounce, [0])[0];
    assert !EntryReady(p, 0, 1);
    hide PipeInv;
    EarlyBreaks(SMALL, Bounce, p, Owning(p, Bounce, [0]), 0);
  }
}
