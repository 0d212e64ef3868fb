/**
 The fill pipe of serving/hide_fill.hpp: up to 32 fills in flight, pumped,
 issued and waited for by one owner while copy workers run.  Workers act
 wherever the owner's code calls `Interfere` or `Yield`; the atomic actions and
 the invariant they keep are those of PipeSpec and PipeProofs.
 */
module HidePipes {
  import opened Common
  import opened Counting
  import opened PageMath
  import opened WindowSpec
  import opened WindowProofs
  import opened PipeSpec
  import opened PipeProofs
  import opened FillRelease
  import opened DramWindows
  import opened SoftPins
  import opened SoftFills

  // ------------------------------------------------------------ what workers may change

  ghost predicate SlotRan(a: Slot, b: Slot) {
    && b == a.(host := b.host, ready := b.ready) && |b.ready| == |a.ready| && |b.host| == |a.host|
    && forall i :: 0 <= i < |a.ready| && a.ready[i] ==> b.ready[i]
  }

  /** Workers ran: bytes arrived, flags went up, work went down; the owner's fields are as they were. */
  ghost predicate Ran(p: Pipe, q: Pipe) {
    && q.nextJob == p.nextJob && q.nextTok == p.nextTok && q.owner == p.owner
    && q.win == p.win.(frames := q.win.frames)
    && |q.slots| == |p.slots| && (forall s :: 0 <= s < |p.slots| ==> SlotRan(p.slots[s], q.slots[s]))
    && Work(q) <= Work(p)
  }

  lemma RanTwice(p: Pipe, q: Pipe, r: Pipe)
    requires Ran(p, q) && Ran(q, r)
    ensures Ran(p, r)
  {
    forall s | 0 <= s < |p.slots| ensures SlotRan(p.slots[s], r.slots[s]) {
      assert SlotRan(p.slots[s], q.slots[s]) && SlotRan(q.slots[s], r.slots[s]);
    }
  }

  /** The owner's count of noted pages is right. */
  ghost predicate Counted(p: Pipe) {
    forall s :: 0 <= s < |p.slots| && p.slots[s].active ==> p.slots[s].readyN == Count(p.slots[s].consumed)
  }

  lemma RanCounted(p: Pipe, q: Pipe)
    requires Ran(p, q) && Counted(p)
    ensures Counted(q)
  {
    forall s | 0 <= s < |q.slots| && q.slots[s].active ensures q.slots[s].readyN == Count(q.slots[s].consumed) {
      assert SlotRan(p.slots[s], q.slots[s]);
    }
  }

  lemma SlotFacts(c: Config, m: Mode, p: Pipe, s: nat)
    requires PipeInv(c, m, p) && s < |p.slots|
    ensures |p.slots| == 32 && SlotOk(c, m, p.slots[s]) && Shape(c, p.win) && Valid(c, p.win)
  {
    hide Valid, OwnersOk, JobsOk, Progress;
    ValidShape(c, p.win);
  }

  /** No work left means every page in flight is ready. */
  lemma NoWorkAllReady(c: Config, m: Mode, p: Pipe, s: nat, i: nat)
    requires PipeInv(c, m, p) && Entry(p, s, i) && Work(p) == 0
    ensures EntryReady(p, s, i)
  {
    hide Valid, OwnersOk;
    SlotFacts(c, m, p, s);
    if !EntryReady(p, s, i) {
      assert Covered(p, s, i);
      var id :| id in p.jobs && Covers(p.jobs[id], s, i);
      WorkPositive(p.jobs, p.nextJob, id);
    }
  }

  /** A direct entry not yet consumed owns its frame; a staged one that is ready holds its page. */
  lemma StagedReady(c: Config, m: Mode, p: Pipe, s: nat, i: nat)
    requires PipeInv(c, m, p) && EntryReady(p, s, i) && !p.slots[s].direct && !m.Vmem?
    ensures i < |p.slots[s].host| && IsPage(c, p.slots[s].pages[i]) && p.slots[s].host[i] == PageAt(c, p.slots[s].pages[i])
  {
    hide Valid, OwnersOk, JobsOk, Progress;
    SlotFacts(c, m, p, s);
  }

  /** The owner pumped slot `s`: notes only go up, and so do flags. */
  ghost predicate SlotStep(a: Slot, b: Slot) {
    && b.active == a.active && b.pages == a.pages && b.frames == a.frames && b.direct == a.direct
    && b.ttl == a.ttl && b.tok == a.tok && |b.ready| == |a.ready| && |b.consumed| == |a.consumed|
    && (forall i :: 0 <= i < |a.ready| && a.ready[i] ==> b.ready[i])
    && (forall i :: 0 <= i < |a.consumed| && a.consumed[i] ==> b.consumed[i])
  }

  /** Every page that has become resident was in flight. */
  ghost predicate Flown(p: Pipe, q: Pipe) {
    forall page :: page in q.win.pageMap ==> page in p.win.pageMap || InFlight(p, page)
  }

  ghost predicate Moved(p: Pipe, q: Pipe, s: nat) {
    && s < |p.slots| == |q.slots|
    && q.nextJob == p.nextJob && q.nextTok == p.nextTok && Work(q) <= Work(p)
    && q.win.pinned == p.win.pinned && Flown(p, q)
    && SlotStep(p.slots[s], q.slots[s])
    && forall t :: 0 <= t < |p.slots| && t != s ==> SlotRan(p.slots[t], q.slots[t])
  }

  lemma MovedFlights(p: Pipe, q: Pipe, s: nat)
    requires Moved(p, q, s)
    ensures forall page :: InFlight(q, page) ==> InFlight(p, page)
  {
    forall page | InFlight(q, page) ensures InFlight(p, page) {
      var t: nat, i: nat :| Entry(q, t, i) && q.slots[t].pages[i] == page;
      assert t != s ==> SlotRan(p.slots[t], q.slots[t]);
      assert Entry(p, t, i);
    }
  }

  lemma FlownTwice(p: Pipe, q: Pipe, r: Pipe)
    requires Flown(p, q) && Flown(q, r) && forall page :: InFlight(q, page) ==> InFlight(p, page)
    ensures Flown(p, r)
  {
    hide InFlight;
  }

  lemma MovedRan(p: Pipe, q: Pipe, r: Pipe, s: nat)
    requires Moved(p, q, s) && Ran(q, r)
    ensures Moved(p, r, s)
  {
    assert SlotRan(q.slots[s], r.slots[s]);
    forall t | 0 <= t < |p.slots| && t != s ensures SlotRan(p.slots[t], r.slots[t]) {
      assert SlotRan(p.slots[t], q.slots[t]) && SlotRan(q.slots[t], r.slots[t]);
    }
  }

  lemma MovedShape(p: Pipe, q: Pipe, s: nat)
    requires Moved(p, q, s)
    ensures s < |p.slots| == |q.slots| && SlotStep(p.slots[s], q.slots[s])
  {}

  lemma MovedAt(p: Pipe, q: Pipe, r: Pipe, s: nat)
    requires Moved(p, q, s) && |r.slots| == |q.slots|
    requires r.nextJob == q.nextJob && r.nextTok == q.nextTok && r.jobs == q.jobs && r.win.pinned == q.win.pinned
    requires SlotStep(q.slots[s], r.slots[s]) && forall t :: 0 <= t < |q.slots| && t != s ==> r.slots[t] == q.slots[t]
    requires forall page :: page in r.win.pageMap ==> page in q.win.pageMap || (q.slots[s].active && page in q.slots[s].pages)
    ensures Moved(p, r, s)
  {
    forall page | page in r.win.pageMap && page !in q.win.pageMap ensures InFlight(q, page) {
      var i :| 0 <= i < |q.slots[s].pages| && q.slots[s].pages[i] == page;
      assert Entry(q, s, i);
    }
    MovedFlights(p, q, s);
    FlownTwice(p, q, r);
    forall t | 0 <= t < |p.slots| && t != s ensures SlotRan(p.slots[t], r.slots[t]) {
      assert SlotRan(p.slots[t], q.slots[t]);
    }
  }

  /** A pump of every slot: slots move on, or have been cleared. */
  ghost predicate Pumped(p: Pipe, q: Pipe) {
    && |q.slots| == |p.slots| && q.nextJob == p.nextJob && q.nextTok == p.nextTok && Work(q) <= Work(p)
    && q.win.pinned == p.win.pinned && Flown(p, q)
    && forall t :: 0 <= t < |p.slots| ==> SlotStep(p.slots[t], q.slots[t]) || !q.slots[t].active
  }

  lemma PumpedMoved(p: Pipe, q: Pipe, r: Pipe, s: nat)
    requires Pumped(p, q) && Moved(q, r, s)
    ensures Pumped(p, r)
  {
    PumpedFlights(p, q);
    FlownTwice(p, q, r);
    forall t | 0 <= t < |p.slots| ensures SlotStep(p.slots[t], r.slots[t]) || !r.slots[t].active {
      assert t != s ==> SlotRan(q.slots[t], r.slots[t]);
    }
  }

  lemma PumpedRan(p: Pipe, q: Pipe, r: Pipe)
    requires Pumped(p, q) && Ran(q, r)
    ensures Pumped(p, r)
  {
    forall t | 0 <= t < |p.slots| ensures SlotStep(p.slots[t], r.slots[t]) || !r.slots[t].active {
      assert SlotRan(q.slots[t], r.slots[t]);
    }
  }

  lemma PumpedSelf(p: Pipe)
    ensures Pumped(p, p)
  {}

  lemma PumpedClear(p: Pipe, q: Pipe, s: nat)
    requires Pumped(p, q) && s < |q.slots|
    ensures Pumped(p, ClearSlot(q, s))
  {}

  lemma PumpedFlights(p: Pipe, q: Pipe)
    requires Pumped(p, q)
    ensures forall page :: InFlight(q, page) ==> InFlight(p, page)
  {
    forall page | InFlight(q, page) ensures InFlight(p, page) {
      var t: nat, i: nat :| Entry(q, t, i) && q.slots[t].pages[i] == page;
      assert Entry(p, t, i);
    }
  }

  lemma MovedTwice(p: Pipe, q: Pipe, r: Pipe, s: nat)
    requires Moved(p, q, s) && Moved(q, r, s)
    ensures Moved(p, r, s)
  {
    MovedFlights(p, q, s);
    FlownTwice(p, q, r);
    forall t | 0 <= t < |p.slots| && t != s ensures SlotRan(p.slots[t], r.slots[t]) {
      assert SlotRan(p.slots[t], q.slots[t]) && SlotRan(q.slots[t], r.slots[t]);
    }
  }

  lemma RanSlots(p: Pipe, r: Pipe)
    requires Ran(p, r)
    ensures |r.slots| == |p.slots| && r.win.pageMap == p.win.pageMap && forall t :: 0 <= t < |p.slots| ==> SlotRan(p.slots[t], r.slots[t])
  {}

  lemma MovedSelf(p: Pipe, s: nat)
    requires s < |p.slots|
    ensures Moved(p, p, s)
  {}

  // ------------------------------------------------------------ fills in place bring their pages

  /** A page still to be handed to the window by some slot. */
  ghost predicate Coming(p: Pipe, page: nat) {
    exists s: nat, i: nat :: Entry(p, s, i) && p.slots[s].pages[i] == page && i < |p.slots[s].consumed| && !p.slots[s].consumed[i]
  }

  ghost predicate HereOrComing(p: Pipe, page: nat) {
    page in p.win.pageMap || Coming(p, page)
  }

  /** Every active slot fills frames in place. */
  ghost predicate InPlace(p: Pipe) {
    forall s :: 0 <= s < |p.slots| && p.slots[s].active ==> p.slots[s].direct
  }

  /** Fills in place bring exactly what they had left to bring, and drop no resident page. */
  ghost predicate Brought(p: Pipe, q: Pipe) {
    InPlace(p) ==>
      && InPlace(q) && (forall page :: page in p.win.pageMap ==> page in q.win.pageMap)
      && forall page :: HereOrComing(q, page) <==> HereOrComing(p, page)
  }

  lemma BroughtSelf(p: Pipe)
    ensures Brought(p, p)
  {}

  lemma BroughtTwice(p: Pipe, q: Pipe, r: Pipe)
    requires Brought(p, q) && Brought(q, r)
    ensures Brought(p, r)
  {
    hide InPlace, HereOrComing;
  }

  /** Through staging memory the window may drop pages: nothing is said. */
  lemma BroughtStaged(p: Pipe, q: Pipe, s: nat)
    requires s < |p.slots| && p.slots[s].active && !p.slots[s].direct
    ensures Brought(p, q)
  {
    hide HereOrComing;
    assert !InPlace(p);
  }

  /** What is left to bring depends only on which slots are active, what they list and what they noted. */
  lemma SameComing(p: Pipe, q: Pipe)
    requires |q.slots| == |p.slots|
    requires forall s :: 0 <= s < |p.slots| ==> q.slots[s].active == p.slots[s].active && q.slots[s].direct == p.slots[s].direct
    requires forall s :: 0 <= s < |p.slots| ==> q.slots[s].pages == p.slots[s].pages && q.slots[s].consumed == p.slots[s].consumed
    ensures InPlace(p) ==> InPlace(q)
    ensures forall page :: Coming(q, page) <==> Coming(p, page)
  {
    forall page ensures Coming(q, page) <==> Coming(p, page) {
      forall s: nat, i: nat ensures Entry(p, s, i) <==> Entry(q, s, i) {}
    }
  }

  lemma BroughtRan(p: Pipe, q: Pipe)
    requires Ran(p, q)
    ensures Brought(p, q)
  {
    forall s | 0 <= s < |p.slots|
      ensures q.slots[s].active == p.slots[s].active && q.slots[s].direct == p.slots[s].direct
      ensures q.slots[s].pages == p.slots[s].pages && q.slots[s].consumed == p.slots[s].consumed
    {
      assert SlotRan(p.slots[s], q.slots[s]);
    }
    SameComing(p, q);
    hide Coming, InPlace;
  }

  /** Workers touch neither soft pins nor notes. */
  lemma SoftenedRan(c: Config, p: Pipe, q: Pipe, n: nat)
    requires Ran(p, q)
    ensures Softened(c, p, n, q, n)
  {
    forall s | 0 <= s < |p.slots|
      ensures q.slots[s].active == p.slots[s].active && q.slots[s].pages == p.slots[s].pages
      ensures q.slots[s].ttl == p.slots[s].ttl && q.slots[s].consumed == p.slots[s].consumed
    {
      assert SlotRan(p.slots[s], q.slots[s]);
    }
    SoftenedSame(c, p, q, n);
  }

  /** Counting pages changes no soft pin. */
  lemma SoftenedCount(c: Config, p: Pipe, s: nat, n: nat)
    requires s < |p.slots|
    ensures Softened(c, p, 0, AddReady(p, s, n), 0)
  {
    SoftenedSame(c, p, AddReady(p, s, n), 0);
  }

  /** Committing one page: it is no longer coming, it is here. */
  lemma BroughtCommit(p: Pipe, q: Pipe, s: nat, i: nat)
    requires Entry(p, s, i) && i < |p.slots[s].consumed| && !p.slots[s].consumed[i] && |q.slots| == |p.slots|
    requires q.slots[s].active && q.slots[s].direct == p.slots[s].direct && q.slots[s].pages == p.slots[s].pages
    requires q.slots[s].consumed == p.slots[s].consumed[i := true]
    requires forall t :: 0 <= t < |p.slots| && t != s ==> q.slots[t] == p.slots[t]
    requires forall page :: page in q.win.pageMap <==> page in p.win.pageMap || page == p.slots[s].pages[i]
    ensures Brought(p, q)
  {
    forall page ensures HereOrComing(q, page) <==> HereOrComing(p, page) {
      CommitComing(p, q, s, i, page);
    }
  }

  lemma CommitComing(p: Pipe, q: Pipe, s: nat, i: nat, page: nat)
    requires Entry(p, s, i) && i < |p.slots[s].consumed| && !p.slots[s].consumed[i] && |q.slots| == |p.slots|
    requires q.slots[s].active && q.slots[s].pages == p.slots[s].pages && q.slots[s].consumed == p.slots[s].consumed[i := true]
    requires forall t :: 0 <= t < |p.slots| && t != s ==> q.slots[t] == p.slots[t]
    ensures Coming(q, page) ==> Coming(p, page)
    ensures Coming(p, page) ==> Coming(q, page) || page == p.slots[s].pages[i]
    ensures page == p.slots[s].pages[i] ==> Coming(p, page)
  {
    if Coming(q, page) {
      var t: nat, j: nat :| Entry(q, t, j) && q.slots[t].pages[j] == page && j < |q.slots[t].consumed| && !q.slots[t].consumed[j];
      assert Entry(p, t, j);
    }
    if Coming(p, page) && page != p.slots[s].pages[i] {
      var t: nat, j: nat :| Entry(p, t, j) && p.slots[t].pages[j] == page && j < |p.slots[t].consumed| && !p.slots[t].consumed[j];
      assert Entry(q, t, j);
    }
  }

  /** A slot with every page noted brings nothing more. */
  lemma BroughtClear(p: Pipe, s: nat)
    requires s < |p.slots| && forall i :: 0 <= i < |p.slots[s].pages| && i < |p.slots[s].consumed| ==> p.slots[s].consumed[i]
    ensures Brought(p, ClearSlot(p, s))
  {
    var q := ClearSlot(p, s);
    forall page ensures Coming(q, page) <==> Coming(p, page) {
      forall t: nat, i: nat | t != s ensures Entry(p, t, i) <==> Entry(q, t, i) {}
    }
  }

  /** Once no slot is active, what was coming is here. */
  lemma NoneComing(p: Pipe, page: nat)
    requires forall s :: 0 <= s < |p.slots| ==> !p.slots[s].active
    ensures HereOrComing(p, page) ==> page in p.win.pageMap
  {}

  /** Every page that was ready then is noted now. */
  ghost predicate NotedAll(p: Pipe, q: Pipe, s: nat, n: nat)
    requires s < |p.slots| && s < |q.slots|
  {
    forall i :: 0 <= i < n && i < |p.slots[s].ready| && p.slots[s].ready[i] && i < |q.slots[s].consumed| ==> q.slots[s].consumed[i]
  }

  /** No page sits in two entries of active slots. */
  ghost predicate NoDup(p: Pipe) {
    forall s: nat, i: nat, t: nat, j: nat :: Entry(p, s, i) && Entry(p, t, j) && (s, i) != (t, j) ==>
      p.slots[s].pages[i] != p.slots[t].pages[j]
  }

  ghost predicate InFlight(p: Pipe, page: nat) {
    exists s: nat, i: nat :: Entry(p, s, i) && p.slots[s].pages[i] == page
  }

  lemma PumpedNoDup(p: Pipe, q: Pipe)
    requires Pumped(p, q) && NoDup(p)
    ensures NoDup(q)
    ensures forall page :: InFlight(q, page) ==> InFlight(p, page)
  {
    forall s: nat, i: nat | Entry(q, s, i) ensures Entry(p, s, i) && q.slots[s].pages[i] == p.slots[s].pages[i] {
      assert SlotStep(p.slots[s], q.slots[s]);
    }
    PumpedFlights(p, q);
  }

  /** Pages that were not in flight join as one new fill. */
  lemma FreshNoDup(p: Pipe, q: Pipe, s: nat)
    requires NoDup(p) && s < |p.slots| == |q.slots| && !p.slots[s].active
    requires forall t :: 0 <= t < |p.slots| && t != s ==> q.slots[t] == p.slots[t]
    requires q.slots[s].active ==> Distinct(q.slots[s].pages) && forall k :: 0 <= k < |q.slots[s].pages| ==> !InFlight(p, q.slots[s].pages[k])
    ensures NoDup(q)
    ensures forall page :: InFlight(p, page) ==> InFlight(q, page)
    ensures q.slots[s].active ==> forall page :: page in q.slots[s].pages ==> InFlight(q, page)
  {
    forall t: nat, i: nat | Entry(q, t, i) && t != s ensures Entry(p, t, i) {}
    forall t: nat, i: nat | Entry(p, t, i) ensures Entry(q, t, i) && q.slots[t].pages[i] == p.slots[t].pages[i] {}
    forall page | InFlight(p, page) ensures InFlight(q, page) {
      var t: nat, i: nat :| Entry(p, t, i) && p.slots[t].pages[i] == page;
      assert Entry(q, t, i);
    }
    if q.slots[s].active {
      forall page | page in q.slots[s].pages ensures InFlight(q, page) {
        var i: nat :| i < |q.slots[s].pages| && q.slots[s].pages[i] == page;
        assert Entry(q, s, i);
      }
    }
  }

  /** While scoring bypasses the window, pumping gives no slot back. */
  lemma PumpedKeepsFlights(p: Pipe, q: Pipe)
    requires Pumped(p, q) && forall t :: 0 <= t < |p.slots| ==> q.slots[t].active == p.slots[t].active
    ensures forall page :: InFlight(p, page) ==> InFlight(q, page)
  {
    forall page | InFlight(p, page) ensures InFlight(q, page) {
      var t: nat, i: nat :| Entry(p, t, i) && p.slots[t].pages[i] == page;
      assert SlotStep(p.slots[t], q.slots[t]);
      assert Entry(q, t, i);
    }
  }

  /** Some active slot lists the page with its flag up. */
  ghost predicate Raised(p: Pipe, page: nat) {
    exists s: nat, i: nat :: EntryReady(p, s, i) && p.slots[s].pages[i] == page
  }

  lemma PumpedKeepsRaised(p: Pipe, q: Pipe)
    requires Pumped(p, q) && forall t :: 0 <= t < |p.slots| ==> q.slots[t].active == p.slots[t].active
    ensures forall page :: Raised(p, page) ==> Raised(q, page)
  {
    forall page | Raised(p, page) ensures Raised(q, page) {
      var t: nat, i: nat :| EntryReady(p, t, i) && p.slots[t].pages[i] == page;
      assert SlotStep(p.slots[t], q.slots[t]);
      assert EntryReady(q, t, i);
    }
  }

  lemma RanKeepsRaised(p: Pipe, q: Pipe)
    requires Ran(p, q)
    ensures forall page :: Raised(p, page) ==> Raised(q, page)
    ensures forall page :: InFlight(p, page) ==> InFlight(q, page)
  {
    forall page | Raised(p, page) ensures Raised(q, page) {
      var t: nat, i: nat :| EntryReady(p, t, i) && p.slots[t].pages[i] == page;
      assert SlotRan(p.slots[t], q.slots[t]);
      assert EntryReady(q, t, i);
    }
    forall page | InFlight(p, page) ensures InFlight(q, page) {
      var t: nat, i: nat :| Entry(p, t, i) && p.slots[t].pages[i] == page;
      assert SlotRan(p.slots[t], q.slots[t]);
      assert Entry(q, t, i);
    }
  }

  lemma RanNoDup(p: Pipe, q: Pipe)
    requires Ran(p, q) && NoDup(p)
    ensures NoDup(q)
  {
    forall s: nat, i: nat | Entry(q, s, i) ensures Entry(p, s, i) && q.slots[s].pages[i] == p.slots[s].pages[i] {
      assert SlotRan(p.slots[s], q.slots[s]);
    }
  }

  lemma FreshKeepsRaised(p: Pipe, q: Pipe, s: nat)
    requires s < |p.slots| == |q.slots| && !p.slots[s].active
    requires forall t :: 0 <= t < |p.slots| && t != s ==> q.slots[t] == p.slots[t]
    ensures forall page :: Raised(p, page) ==> Raised(q, page)
  {
    forall page | Raised(p, page) ensures Raised(q, page) {
      var t: nat, i: nat :| EntryReady(p, t, i) && p.slots[t].pages[i] == page;
      assert Entry(p, t, i);
      assert EntryReady(q, t, i);
    }
  }

  /** A page in flight whose flag is down has a job at work on it. */
  lemma UnraisedHasJob(c: Config, m: Mode, p: Pipe, page: nat)
    requires PipeInv(c, m, p) && InFlight(p, page) && !Raised(p, page)
    ensures p.jobs != map[]
  {
    hide Valid, OwnersOk, JobsOk;
    var s: nat, i: nat :| Entry(p, s, i) && p.slots[s].pages[i] == page;
    SlotFacts(c, m, p, s);
    assert !EntryReady(p, s, i);
    assert Covered(p, s, i);
    var id :| id in p.jobs && Covers(p.jobs[id], s, i);
  }

  /** A fill whose pages were all asked for is complete once everything asked for covers. */
  lemma CoveredFillReady(c: Config, m: Mode, p: Pipe, s: nat, need: seq<nat>)
    requires PipeInv(c, m, p) && NoDup(p) && s < |p.slots| && p.slots[s].active
    requires forall k :: 0 <= k < |p.slots[s].pages| ==> p.slots[s].pages[k] in need
    requires forall page :: page in need ==> Raised(p, page)
    ensures forall k :: 0 <= k < |p.slots[s].pages| ==> EntryReady(p, s, k)
  {
    forall k: nat | k < |p.slots[s].pages| ensures EntryReady(p, s, k) {
      var page := p.slots[s].pages[k];
      assert Raised(p, page);
      var t: nat, i: nat :| EntryReady(p, t, i) && p.slots[t].pages[i] == page;
      assert Entry(p, s, k) && Entry(p, t, i);
    }
  }

  /** Every page of slot `s` has its flag up. */
  ghost predicate AllReady(p: Pipe, s: nat) {
    s < |p.slots| && forall i: nat :: i < |p.slots[s].pages| ==> ReadyAt(p.slots[s], i)
  }

  ghost predicate ReadyAt(sl: Slot, i: nat) {
    i < |sl.ready| && sl.ready[i]
  }

  ghost predicate AllComplete(p: Pipe, sel: seq<bool>)
    requires |sel| == |p.slots|
  {
    forall s: nat :: s < |sel| && sel[s] ==> Complete(p, s)
  }

  lemma ClearedNoDup(p: Pipe, q: Pipe)
    requires NoDup(p) && |q.slots| == |p.slots|
    requires forall s :: 0 <= s < |p.slots| ==> q.slots[s] == p.slots[s] || q.slots[s] == Cleared(p.slots[s])
    ensures NoDup(q)
  {
    forall s: nat, i: nat | Entry(q, s, i) ensures Entry(p, s, i) && q.slots[s].pages[i] == p.slots[s].pages[i] {}
  }

  /** Is every needed page among these? */
  method ListsAll(pages: seq<nat>, need: seq<nat>) returns (owns: bool)
    ensures owns <==> forall q :: q in need ==> q in pages
  {
    for k := 0 to |need|
      invariant forall j :: 0 <= j < k ==> need[j] in pages
    {
      var hit := false;
      for i := 0 to |pages|
        invariant !hit ==> need[k] !in pages[..i]
        invariant hit ==> need[k] in pages
      {
        assert pages[..i + 1] == pages[..i] + [pages[i]];
        if pages[i] == need[k] { hit := true; }
      }
      assert pages[..|pages|] == pages;
      if !hit { return false; }
    }
    return true;
  }

  /** A fill made for a query, with nothing else in it, is complete once the query is covered: its token may be given back. */
  lemma OwnFillSafe(c: Config, m: Mode, p: Pipe, tok: nat, need: seq<nat>)
    requires PipeInv(c, m, p) && NoDup(p)
    requires forall s :: 0 <= s < |p.slots| && WithTok(p, m, tok)[s] ==> forall k :: 0 <= k < |p.slots[s].pages| ==> p.slots[s].pages[k] in need
    requires forall page :: page in need ==> Raised(p, page)
    ensures AllComplete(p, WithTok(p, m, tok))
  {
    forall s: nat | s < |p.slots| && WithTok(p, m, tok)[s] ensures Complete(p, s) {
      CoveredFillReady(c, m, p, s, need);
    }
  }

  /** No active slot fills frames in place. */
  ghost predicate Staged(slots: seq<Slot>) {
    forall s :: 0 <= s < |slots| && slots[s].active ==> !slots[s].direct
  }

  /** What the window must have beyond its pins: with fills in place the pipe's bound, with staged fills one frame, else nothing. */
  ghost predicate RoomFor(c: Config, m: Mode, direct: bool, slots: seq<Slot>) {
    && c.nFrames > 0
    && (m.WindowMode? && direct ==> Roomy(c))
    && (m.WindowMode? && !direct ==> c.pinCap < PageOff(c.nFrames, c.pageBytes) && Staged(slots))
  }

  lemma NoFills(c: Config, m: Mode, p: Pipe)
    requires PipeInv(c, m, p) && Staged(p.slots)
    ensures Count(p.win.filling) == 0
  {
    hide MapInv, FlagInv, PinInv, SoftInv, BytesInv, JobsOk, Progress;
    CountBound(p.win.filling);
    NoOwners(c, p);
  }

  lemma NoOwners(c: Config, p: Pipe)
    requires Shape(c, p.win) && OwnersOk(c, p) && Staged(p.slots)
    ensures forall f :: f !in p.owner
  {
    forall f ensures f !in p.owner { OwnedInPlace(c, p, f); }
  }

  lemma OwnedInPlace(c: Config, p: Pipe, f: nat)
    requires Shape(c, p.win) && OwnersOk(c, p)
    ensures f in p.owner ==> exists s :: 0 <= s < |p.slots| && p.slots[s].active && p.slots[s].direct
  {
    if f in p.owner { assert Fills(c, p, p.owner[f].0, p.owner[f].1, f) && Entry(p, p.owner[f].0, p.owner[f].1); }
  }

  /** While the window is in use the clock always finds an idle frame. */
  lemma AlwaysIdle(c: Config, m: Mode, direct: bool, p: Pipe)
    requires PipeInv(c, m, p) && m.WindowMode? && RoomFor(c, m, direct, p.slots)
    ensures HasIdle(p.win)
  {
    if direct {
      PipeHasIdle(c, m, p);
    } else {
      NoFills(c, m, p);
      RoomyHasIdle(c, p.win, 0);
    }
  }

  // ------------------------------------------------------------ slots to spare

  function IdleFlags(slots: seq<Slot>): (r: seq<bool>)
    ensures |r| == |slots|
  {
    seq(|slots|, i requires 0 <= i < |slots| => !slots[i].active)
  }

  ghost function IdleSlots(slots: seq<Slot>): nat {
    Count(IdleFlags(slots))
  }

  lemma SomeIdle(slots: seq<Slot>)
    ensures IdleSlots(slots) > 0 <==> exists s :: 0 <= s < |slots| && !slots[s].active
  {
    var flags := IdleFlags(slots);
    CountBound(flags);
    assert forall s :: 0 <= s < |slots| ==> flags[s] == !slots[s].active;
  }

  lemma SameIdle(a: seq<Slot>, b: seq<Slot>)
    requires |a| == |b| && forall s :: 0 <= s < |a| ==> a[s].active == b[s].active
    ensures IdleSlots(a) == IdleSlots(b)
  {
    assert IdleFlags(a) == IdleFlags(b);
  }

  lemma OneUsed(a: seq<Slot>, b: seq<Slot>, s: nat)
    requires s < |a| == |b| && !a[s].active && forall t :: 0 <= t < |a| && t != s ==> b[t] == a[t]
    ensures IdleSlots(b) == IdleSlots(a) - (if b[s].active then 1 else 0)
  {
    assert IdleFlags(b) == IdleFlags(a)[s := !b[s].active];
    CountUpdate(IdleFlags(a), s, !b[s].active);
  }

  /** The needed pages no active slot lists. */
  ghost function Missing(p: Pipe, need: seq<nat>): (r: set<nat>)
    ensures forall page :: page in r <==> page in need && !InFlight(p, page)
  {
    set page | page in need && !InFlight(p, page)
  }

  lemma FewerCard(a: set<nat>, b: set<nat>)
    requires a <= b
    ensures |a| <= |b|
  {
    assert b == a + (b - a);
  }

  lemma ListCard(t: seq<nat>, a: set<nat>)
    requires forall x :: x in a ==> x in t
    ensures |a| <= |t|
  {
    if t == [] {
      assert a == {};
    } else {
      var init, last := t[..|t| - 1], t[|t| - 1];
      assert t == init + [last];
      ListCard(init, a - {last});
      assert a <= (a - {last}) + {last};
      FewerCard(a, (a - {last}) + {last});
    }
  }

  lemma DistinctList(t: seq<nat>, a: set<nat>)
    requires Distinct(t) && forall x :: x in a <==> x in t
    ensures |a| == |t|
  {
    DistinctCard(t);
    var u := set x: nat | x in t;
    assert |u| == |t| && a == u;
  }

  /** The asked pages that are neither resident, when the window is in use, nor in flight. */
  ghost predicate Misses(m: Mode, p: Pipe, pages: seq<nat>, miss: seq<nat>) {
    Distinct(miss) && forall x :: x in miss <==> x in pages && !(m.WindowMode? && x in p.win.pageMap) && !InFlight(p, x)
  }

  /** No flight is lost or gained. */
  ghost predicate SameFlights(p: Pipe, q: Pipe) {
    forall page :: InFlight(p, page) <==> InFlight(q, page)
  }

  lemma SameMissing(p: Pipe, q: Pipe, pages: seq<nat>)
    requires SameFlights(p, q)
    ensures Missing(p, pages) == Missing(q, pages)
  {
    hide InFlight;
  }

  /** Away from the window the list has as many pages as are missing. */
  lemma MissesCard(m: Mode, p: Pipe, pages: seq<nat>, miss: seq<nat>)
    requires Misses(m, p, pages, miss) && !m.WindowMode?
    ensures |miss| == |Missing(p, pages)| && (miss == [] <==> forall x :: x in pages ==> InFlight(p, x))
  {
    hide InFlight;
    DistinctList(miss, Missing(p, pages));
    if miss != [] { assert miss[0] in miss; }
  }

  /** Away from the window a wave of the missing pages goes into one new fill. */
  lemma WaveFetched(m: Mode, p: Pipe, q: Pipe, pages: seq<nat>, miss: seq<nat>, n: nat)
    requires Misses(m, p, pages, miss) && !m.WindowMode? && n <= |miss|
    requires (forall x :: InFlight(p, x) ==> InFlight(q, x)) && forall x :: x in miss[..n] ==> InFlight(q, x)
    ensures |Missing(q, pages)| <= |miss| - n
    ensures n == |miss| ==> forall x :: x in pages ==> InFlight(q, x)
  {
    hide InFlight;
    assert miss == miss[..n] + miss[n..];
    ListCard(miss[n..], Missing(q, pages));
  }

  /** A page neither resident nor in flight before the pumps is still missing after them. */
  lemma StillMissing(m: Mode, p: Pipe, q: Pipe, pages: seq<nat>, miss: seq<nat>, x: nat)
    requires Flown(p, q) && (forall y :: InFlight(q, y) ==> InFlight(p, y)) && Misses(m, q, pages, miss)
    requires x in pages && x !in p.win.pageMap && !InFlight(p, x)
    ensures x in miss && x !in q.win.pageMap && !InFlight(q, x)
  {}

  /** One turn of the loop that waits for a slot: a pump away from the window, then worker steps. */
  ghost predicate StallTurn(p: Pipe, q: Pipe) {
    exists mid: Pipe :: Pumped(p, mid) && SameActive(p, mid) && Ran(mid, q)
  }

  ghost predicate SameActive(p: Pipe, q: Pipe) {
    |p.slots| == |q.slots| && forall s :: 0 <= s < |p.slots| ==> q.slots[s].active == p.slots[s].active
  }

  ghost predicate StallRun(turns: seq<Pipe>) {
    turns != [] && forall i :: 0 <= i < |turns| - 1 ==> StallTurn(turns[i], turns[i + 1])
  }

  lemma StallKeeps(p: Pipe, q: Pipe)
    requires StallTurn(p, q)
    ensures SameActive(p, q)
  {
    var mid: Pipe :| Pumped(p, mid) && SameActive(p, mid) && Ran(mid, q);
    forall s | 0 <= s < |p.slots| ensures q.slots[s].active == p.slots[s].active { assert SlotRan(mid.slots[s], q.slots[s]); }
  }

  lemma {:induction false} StallSame(turns: seq<Pipe>)
    requires StallRun(turns)
    ensures SameActive(turns[0], turns[|turns| - 1])
  {
    if |turns| > 1 {
      var init := turns[..|turns| - 1];
      assert forall i :: 0 <= i < |init| - 1 ==> StallTurn(init[i], init[i + 1]);
      StallSame(init);
      StallKeeps(turns[|turns| - 2], turns[|turns| - 1]);
    }
  }

  /** Away from the window nothing in that loop gives a slot back: it ends exactly when a slot was idle to begin with. */
  lemma StallEndsIff(p: Pipe)
    ensures (exists turns: seq<Pipe> :: StallRun(turns) && turns[0] == p && IdleSlots(turns[|turns| - 1].slots) > 0) <==> IdleSlots(p.slots) > 0
  {
    if IdleSlots(p.slots) > 0 { assert StallRun([p]); }
    forall turns: seq<Pipe> | StallRun(turns) && turns[0] == p ensures IdleSlots(turns[|turns| - 1].slots) == IdleSlots(p.slots) {
      StallSame(turns);
      SameIdle(p.slots, turns[|turns| - 1].slots);
    }
  }

  /** Thirty-two fills of one page each, all complete and none released. */
  ghost function FullPipe(): Pipe {
    Pipe(seq(32, i requires 0 <= i < 32 => Slot([i], [[0]], [], [true], [true], 1, 32, true, false, i + 1)), map[], 0, 33, map[],
         Win(map[], [], [], [], [], [], {}, 0, 0, 0, []))
  }

  ghost const FULL_IMAGE: Config := Config(seq(33, _ => 0), 1, 0, 0, 0, false)

  lemma FullPipeValid()
    ensures PipeInv(FULL_IMAGE, Bounce, FullPipe()) && NoDup(FullPipe())
  {
    EmptyWindow();
    FullSlots();
    hide Valid, SlotsOk;
    assert FullPipe().jobs == map[] && FullPipe().owner == map[];
  }

  lemma FullSlots()
    ensures SlotsOk(FULL_IMAGE, Bounce, FullPipe())
  {
    forall s: nat | s < 32 ensures SlotOk(FULL_IMAGE, Bounce, FullPipe().slots[s]) { FullSlot(s); }
    hide SlotOk;
  }

  lemma FullSlot(s: nat)
    requires s < 32
    ensures SlotOk(FULL_IMAGE, Bounce, Slot([s], [[0]], [], [true], [true], 1, 32, true, false, s + 1))
  {
    CountFull([true]);
    assert PageAt(FULL_IMAGE, s) == [0];
    hide Count;
  }

  lemma EmptyWindow()
    ensures Valid(FULL_IMAGE, FullPipe().win)
  {
    CountBound([]);
    CountBound(SoftFlags([]));
  }

  /** A stalling call for one more page, in a state the protocol allows, never gets a slot of them. */
  lemma FullPipeStalls()
    ensures PipeInv(FULL_IMAGE, Bounce, FullPipe()) && NoDup(FullPipe())
    ensures IsPage(FULL_IMAGE, 32) && !InFlight(FullPipe(), 32) && Short(FullPipe(), [32])
    ensures forall turns: seq<Pipe> :: StallRun(turns) && turns[0] == FullPipe() ==> IdleSlots(turns[|turns| - 1].slots) == 0
  {
    FullPipeValid();
    hide PipeInv, NoDup;
    var p := FullPipe();
    SomeIdle(p.slots);
    StallEndsIff(p);
    assert forall s :: 0 <= s < 32 ==> p.slots[s].pages == [s];
    assert 32 in Missing(p, [32]);
  }

  /** A turn that starts a fill of at most 1024 pages in an idle slot. */
  ghost predicate FillTurn(p: Pipe, q: Pipe, s: nat) {
    && s < |p.slots| == |q.slots| && !p.slots[s].active && |q.slots[s].pages| <= MAX_PAGES
    && forall t :: 0 <= t < |p.slots| && t != s ==> q.slots[t] == p.slots[t]
  }

  ghost predicate WaitTurn(p: Pipe, q: Pipe) {
    StallTurn(p, q) || exists s :: FillTurn(p, q, s)
  }

  ghost predicate WaitRun(turns: seq<Pipe>) {
    turns != [] && forall i :: 0 <= i < |turns| - 1 ==> WaitTurn(turns[i], turns[i + 1])
  }

  /** More pages are left to fetch than the idle slots hold. */
  ghost predicate Short(p: Pipe, need: seq<nat>) {
    |Missing(p, need)| > MAX_PAGES * IdleSlots(p.slots)
  }

  lemma StallShort(p: Pipe, q: Pipe, need: seq<nat>)
    requires StallTurn(p, q) && Short(p, need)
    ensures Short(q, need)
  {
    var mid: Pipe :| Pumped(p, mid) && SameActive(p, mid) && Ran(mid, q);
    StallKeeps(p, q);
    SameIdle(p.slots, q.slots);
    PumpedFlights(p, mid);
    forall x | InFlight(q, x) ensures InFlight(mid, x) {
      var s: nat, i: nat :| Entry(q, s, i) && q.slots[s].pages[i] == x;
      assert SlotRan(mid.slots[s], q.slots[s]) && Entry(mid, s, i);
    }
    hide InFlight;
    FewerCard(Missing(p, need), Missing(q, need));
  }

  lemma FillShort(p: Pipe, q: Pipe, s: nat, need: seq<nat>)
    requires FillTurn(p, q, s) && Short(p, need)
    ensures Short(q, need)
  {
    OneUsed(p.slots, q.slots, s);
    var more := set x | x in need && q.slots[s].active && x in q.slots[s].pages;
    forall x | x in Missing(p, need) ensures x in Missing(q, need) + more {
      if InFlight(q, x) {
        var t: nat, i: nat :| Entry(q, t, i) && q.slots[t].pages[i] == x;
        if t != s { assert Entry(p, t, i); }
      }
    }
    ListCard(q.slots[s].pages, more);
    FewerCard(Missing(p, need), Missing(q, need) + more);
    if !q.slots[s].active { assert more == {}; }
  }

  /** Short of slots the wait never covers: whatever its turns are, some needed page has no flag up. */
  lemma {:induction false} ShortForever(turns: seq<Pipe>, need: seq<nat>)
    requires WaitRun(turns) && Short(turns[0], need)
    ensures Short(turns[|turns| - 1], need) && exists x :: x in need && !Raised(turns[|turns| - 1], x)
  {
    hide StallTurn, FillTurn, Short, Raised;
    var n := |turns| - 1;
    if n > 0 {
      var init := turns[..n];
      assert forall i :: 0 <= i < |init| - 1 ==> WaitTurn(init[i], init[i + 1]);
      ShortForever(init, need);
      assert WaitTurn(turns[n - 1], turns[n]);
      if StallTurn(turns[n - 1], turns[n]) {
        StallShort(turns[n - 1], turns[n], need);
      } else {
        var s :| FillTurn(turns[n - 1], turns[n], s);
        FillShort(turns[n - 1], turns[n], s, need);
      }
    }
    ShortUncovered(turns[n], need);
  }

  lemma RaisedFlies(p: Pipe, x: nat)
    ensures Raised(p, x) ==> InFlight(p, x)
  {
    if Raised(p, x) {
      var s: nat, i: nat :| EntryReady(p, s, i) && p.slots[s].pages[i] == x;
      assert Entry(p, s, i);
    }
  }

  lemma ShortUncovered(p: Pipe, need: seq<nat>)
    requires Short(p, need)
    ensures exists x :: x in need && !Raised(p, x)
  {
    hide Raised, InFlight;
    assert Missing(p, need) != {};
    var x :| x in Missing(p, need);
    RaisedFlies(p, x);
  }

  class HidePipe {
    const win: DramWindow
    const score: Mode
    const directInstall: bool
    var slot: seq<Slot>
    var jobs: map<nat, Job>
    var nextJob: nat
    var nextTok: nat
    ghost var owner: map<nat, (nat, nat)>

    ghost function Abs(): Pipe
      reads this, win, win.arena
    {
      Pipe(slot, jobs, nextJob, nextTok, owner, win.Abs())
    }

    ghost predicate Inv()
      reads this, win, win.arena
    {
      win.Sized() && PipeInv(win.Cfg(), score, Abs()) && RoomFor(win.Cfg(), score, directInstall, slot)
    }

    ghost predicate Good()
      reads this, win, win.arena
    {
      Inv() && Counted(Abs()) && nextTok > 0
    }

    constructor (win: DramWindow, score: Mode, directInstall: bool)
      requires win.Good() && RoomFor(win.Cfg(), score, directInstall, [])
      requires forall i :: 0 <= i < win.nFrames ==> !win.frameFilling[i]
      ensures Good() && this.win == win && this.score == score && this.directInstall == directInstall
      ensures forall s :: 0 <= s < |slot| ==> !slot[s].active
    {
      this.win := win;
      this.score := score;
      this.directInstall := directInstall;
      slot := seq(32, _ => Slot([], [], [], [], [], 0, 32, false, false, 0));
      jobs := map[];
      nextJob := 0;
      nextTok := 1;
      owner := map[];
    }

    // ---------------------------------------------------------- copy workers

    /** Bytes, right or still partial, land in the destination of a page whose flag is down. */
    method WriteBytes(id: nat, i: nat, bytes: Bytes)
      requires Inv() && id in jobs && jobs[id].phase.Writing? && |bytes| == win.pageBytes
      requires jobs[id].off <= i < jobs[id].off + jobs[id].n
      modifies this`slot, win.arena
      ensures Inv() && Ran(old(Abs()), Abs())
    {
      hide Valid, SlotsOk, OwnersOk, JobsOk, Progress;
      ghost var p := Abs();
      JobFacts(win.Cfg(), score, p, id, i);
      SlotFacts(win.Cfg(), score, p, jobs[id].slot);
      DeliverKeeps(win.Cfg(), score, p, id, i, bytes);
      WriteDest(jobs[id].slot, i, bytes);
    }

    method WriteDest(s: nat, i: nat, bytes: Bytes)
      requires win.Sized() && s < |slot| && |bytes| == win.pageBytes
      modifies this`slot, win.arena
      ensures win.Sized() && Abs() == Deliver(score, old(Abs()), s, i, bytes)
    {
      var sl := slot[s];
      if sl.direct {
        if i < |sl.frames| && sl.frames[i] < win.nFrames { win.arena[sl.frames[i]] := bytes; }
      } else if i < |sl.host| {
        slot := slot[s := sl.(host := sl.host[i := bytes])];
      }
    }

    method ReadPages(j: Job)
      requires win.Sized() && j.slot < |slot| && j.off + j.n <= |slot[j.slot].pages|
      requires forall i :: 0 <= i < |slot[j.slot].pages| ==> slot[j.slot].pages[i] + win.pageBytes <= |win.ssd|
      modifies this`slot, win.arena
      ensures win.Sized() && jobs == old(jobs) && Abs() == DeliverAll(win.Cfg(), score, old(Abs()), j, j.n)
    {
      ghost var c, p := win.Cfg(), Abs();
      hide DeliverAll, Deliver;
      EmptyRead(c, score, p, j);
      for x := 0 to j.n
        invariant win.Sized() && jobs == p.jobs && |slot| == |p.slots|
        invariant Abs() == DeliverAll(c, score, p, j, x)
      {
        ReadPage(p, j, x);
      }
    }

    /** Page `x` of the job, those before it read already. */
    method ReadPage(ghost p: Pipe, j: Job, x: nat)
      requires win.Sized() && j.slot < |p.slots| && x < j.n && j.off + j.n <= |p.slots[j.slot].pages|
      requires forall i :: 0 <= i < |p.slots[j.slot].pages| ==> p.slots[j.slot].pages[i] + win.pageBytes <= |win.ssd|
      requires jobs == p.jobs && |slot| == |p.slots| && Abs() == DeliverAll(win.Cfg(), score, p, j, x)
      modifies this`slot, win.arena
      ensures win.Sized() && jobs == p.jobs && |slot| == |p.slots|
      ensures Abs() == DeliverAll(win.Cfg(), score, p, j, x + 1)
    {
      hide DeliverAll, Deliver;
      ReadStep(win.Cfg(), score, p, j, x);
      var page := slot[j.slot].pages[j.off + x];
      WriteDest(j.slot, j.off + x, win.ssd[page..page + win.pageBytes]);
    }

    /** The device read of a job returns, or its pages have been copied one by one. */
    method ReadJob(id: nat)
      requires Inv() && id in jobs && jobs[id].phase.Writing?
      modifies this`slot, this`jobs, win.arena
      ensures Inv() && Ran(old(Abs()), Abs()) && Work(Abs()) < old(Work(Abs()))
    {
      hide Valid, SlotsOk, OwnersOk, JobsOk, Progress, Work;
      ghost var c, p := win.Cfg(), Abs();
      var j := jobs[id];
      JobPages(c, score, p, id);
      DeliverAllRan(c, score, p, j, j.n);
      ReadPages(j);
      jobs := jobs[id := j.(phase := Flagging(0))];
      EndReadKeeps(c, score, p, id);
      ReadWork(c, score, p, Abs(), id);
    }

    /** One ready flag. */
    method FlagPage(id: nat)
      requires Inv() && id in jobs && jobs[id].phase.Flagging?
      modifies this`slot, this`jobs
      ensures Inv() && Ran(old(Abs()), Abs()) && Work(Abs()) < old(Work(Abs()))
    {
      hide Valid, SlotsOk, OwnersOk, JobsOk, Progress, Work;
      ghost var c, p := win.Cfg(), Abs();
      FlagFacts(c, score, p, id);
      SetFlagKeeps(c, score, p, id);
      FlagWork(c, score, p, id);
      var j := jobs[id];
      var sl := slot[j.slot];
      var k := j.phase.k;
      slot := slot[j.slot := sl.(ready := sl.ready[j.off + k := true])];
      jobs := if k + 1 < j.n then jobs[id := j.(phase := Flagging(k + 1))] else jobs - {id};
      assert Abs() == SetFlag(p, id);
    }

    /** One step of some worker, of any kind. */
    method AnyStep()
      requires Inv()
      modifies this`slot, this`jobs, win.arena
      ensures Inv() && Ran(old(Abs()), Abs())
    {
      hide Valid, SlotsOk, OwnersOk, JobsOk, Progress, Work;
      if jobs == map[] { return; }
      var id :| id in jobs;
      var i: nat, bytes: Bytes := *, *;
      if jobs[id].phase.Flagging? {
        FlagPage(id);
      } else if jobs[id].off <= i < jobs[id].off + jobs[id].n && |bytes| == win.pageBytes {
        WriteBytes(id, i, bytes);
      } else {
        ReadJob(id);
      }
    }

    /** Any number of worker steps: what may happen between two steps of the owner. */
    method Interfere()
      requires Inv()
      modifies this`slot, this`jobs, win.arena
      ensures Inv() && Ran(old(Abs()), Abs())
    {
      hide PipeInv, Work;
      var steps: nat := *;
      while steps > 0
        invariant Inv() && Ran(old(Abs()), Abs())
      {
        ghost var q := Abs();
        AnyStep();
        RanTwice(old(Abs()), q, Abs());
        steps := steps - 1;
      }
    }

    /** The owner gives up the processor: if work is left, some of it gets done. */
    method Yield()
      requires Inv()
      modifies this`slot, this`jobs, win.arena
      ensures Inv() && Ran(old(Abs()), Abs())
      ensures old(jobs) != map[] ==> Work(Abs()) < old(Work(Abs()))
    {
      hide PipeInv, Work;
      if jobs != map[] {
        var id :| id in jobs;
        if jobs[id].phase.Flagging? { FlagPage(id); } else { ReadJob(id); }
      }
      ghost var q := Abs();
      Interfere();
      RanTwice(old(Abs()), q, Abs());
    }

    /** One turn of the loop in which `issue` waits for a slot away from the window: a pump, and a yield. */
    method StallStep()
      requires Good() && !score.WindowMode?
      modifies this`slot, this`jobs, this`owner, win, win.arena
      ensures Inv() && StallTurn(old(Abs()), Abs())
    {
      hide PipeInv, Work, Pumped, Ran, SameActive;
      ghost var p := Abs();
      Pump();
      ghost var mid := Abs();
      Yield();
      assert Pumped(p, mid) && SameActive(p, mid) && Ran(mid, Abs());
    }

    // ---------------------------------------------------------- pumping

    /** Mark a ready page of a slot with no frames of its own; its count follows later. */
    method MarkPage(s: nat, i: nat)
      requires Inv() && EntryReady(Abs(), s, i) && i < |slot[s].consumed| && !slot[s].consumed[i] && !slot[s].direct
      modifies this`slot
      ensures Inv() && Abs() == Mark(old(Abs()), s, i)
      ensures Count(slot[s].consumed) == old(Count(slot[s].consumed)) + 1
    {
      hide PipeInv;
      MarkKeeps(win.Cfg(), score, Abs(), s, i);
      slot := slot[s := slot[s].(consumed := slot[s].consumed[i := true])];
    }

    method CountPages(s: nat, n: nat)
      requires Inv() && s < |slot| && slot[s].active && slot[s].readyN + n <= Count(slot[s].consumed)
      modifies this`slot
      ensures Inv() && Abs() == AddReady(old(Abs()), s, n)
    {
      hide PipeInv;
      AddReadyKeeps(win.Cfg(), score, Abs(), s, n);
      slot := slot[s := slot[s].(readyN := slot[s].readyN + n)];
    }

    /** Mark, commit and count a ready page that was filled in place. */
    method CommitPage(s: nat, i: nat)
      requires Inv() && EntryReady(Abs(), s, i) && slot[s].direct
      requires i < |slot[s].consumed| && !slot[s].consumed[i] && i < |slot[s].frames|
      modifies this`slot, this`owner, win
      ensures Inv() && Abs() == CommitEntry(win.Cfg(), old(Abs()), s, i)
      ensures slot[s].pages[i] in win.pageMap && old(win.pageMap.Keys) <= win.pageMap.Keys
      ensures Count(slot[s].consumed) == old(Count(slot[s].consumed)) + 1 && slot[s].readyN == old(slot[s].readyN) + 1
    {
      hide Valid, SlotsOk, OwnersOk, JobsOk, Progress, Commit;
      SlotFacts(win.Cfg(), score, Abs(), s);
      ghost var p := Abs();
      CommitEntryKeeps(win.Cfg(), score, p, s, i);
      var sl := slot[s];
      win.CommitFill(sl.pages[i], sl.frames[i], sl.ttl);
      slot := slot[s := sl.(consumed := sl.consumed[i := true], readyN := sl.readyN + 1)];
      owner := owner - {sl.frames[i]};
      assert slot == Mark(p, s, i).slots[s := slot[s]];
      assert Abs() == CommitEntry(win.Cfg(), p, s, i);
    }

    /** `hide_pump` when scoring does not read the window: only take note. */
    method PumpFlags(s: nat)
      requires Good() && s < |slot| && slot[s].active && !score.WindowMode?
      modifies this`slot, this`jobs, win.arena
      ensures Good() && Moved(old(Abs()), Abs(), s) && NotedAll(old(Abs()), Abs(), s, |slot[s].pages|)
    {
      hide PipeInv, Work, Flown, InFlight;
      ghost var c, p := win.Cfg(), Abs();
      MovedSelf(p, s);
      for i := 0 to |slot[s].pages|
        invariant Good() && Moved(p, Abs(), s) && NotedAll(p, Abs(), s, i)
      {
        PumpFlagsPage(s, i, p);
      }
    }

    method PumpFlagsPage(s: nat, i: nat, ghost p: Pipe)
      requires Good() && s < |slot| && slot[s].active && !score.WindowMode? && i < |slot[s].pages|
      requires s < |p.slots| && Moved(p, Abs(), s) && NotedAll(p, Abs(), s, i)
      modifies this`slot, this`jobs, win.arena
      ensures Good() && s < |slot| && Moved(p, Abs(), s) && NotedAll(p, Abs(), s, i + 1) && |slot[s].pages| == old(|slot[s].pages|)
    {
      hide PipeInv, Work, Flown, InFlight, Moved, Ran;
      ghost var c, q := win.Cfg(), Abs();
      Interfere();
      RanCounted(q, Abs());
      MovedRan(p, q, Abs(), s);
      ghost var r := Abs();
      MovedShape(p, r, s);
      SlotFacts(c, score, r, s);
      RanSlots(q, r);
      NotePage(s, i);
      MovedAt(p, r, Abs(), s);
    }

    /** Noted once, if its flag is up. */
    method NotePage(s: nat, i: nat)
      requires Good() && s < |slot| && slot[s].active && !score.WindowMode? && i < |slot[s].pages|
      modifies this`slot
      ensures Good() && |slot| == old(|slot|) && SlotStep(old(slot)[s], slot[s])
      ensures forall t :: 0 <= t < |slot| && t != s ==> slot[t] == old(slot)[t]
      ensures i < |slot[s].consumed| && (i < |old(slot)[s].ready| && old(slot)[s].ready[i] ==> slot[s].consumed[i])
    {
      hide PipeInv, Work;
      SlotFacts(win.Cfg(), score, Abs(), s);
      if slot[s].consumed[i] { return; }
      if !slot[s].ready[i] { return; }
      MarkPage(s, i);
      CountPages(s, 1);
    }

    /** One page's turn when frames are filled in place: commit it if its flag is up. */
    method PumpDirectPage(s: nat, i: nat)
      requires Good() && Entry(Abs(), s, i) && slot[s].direct
      modifies this`slot, this`jobs, this`owner, win, win.arena
      ensures Good() && Moved(old(Abs()), Abs(), s)
      ensures Entry(Abs(), s, i) && i < |slot[s].consumed| == |slot[s].pages|
      ensures EntryReady(old(Abs()), s, i) ==> slot[s].consumed[i]
      ensures old(win.pageMap.Keys) <= win.pageMap.Keys && Brought(old(Abs()), Abs())
      ensures Softened(win.Cfg(), old(Abs()), 0, Abs(), 0)
      ensures slot[s].consumed == old(slot[s].consumed) || (slot[s].consumed == old(slot[s].consumed)[i := true] && slot[s].pages[i] in win.pageMap)
    {
      hide PipeInv, Work, Flown, InFlight, Brought, Softened;
      ghost var c, p := win.Cfg(), Abs();
      MovedSelf(p, s);
      Interfere();
      RanCounted(p, Abs());
      MovedRan(p, p, Abs(), s);
      BroughtRan(p, Abs());
      SoftenedRan(c, p, Abs(), 0);
      ghost var r := Abs();
      SlotFacts(c, score, r, s);
      assert SlotRan(p.slots[s], r.slots[s]);
      if slot[s].consumed[i] { return; }
      if !slot[s].ready[i] { return; }
      SoftCommit(c, r, s, i);
      CommitPage(s, i);
      CommitMoves(c, r, s, i);
      MovedAt(p, r, Abs(), s);
      BroughtCommit(r, Abs(), s, i);
      BroughtTwice(p, r, Abs());
      SoftenedTwice(c, p, 0, r, 0, Abs(), 0);
    }

    lemma SoftCommit(c: Config, p: Pipe, s: nat, i: nat)
      requires PipeInv(c, score, p) && EntryReady(p, s, i) && p.slots[s].direct
      requires i < |p.slots[s].consumed| && !p.slots[s].consumed[i] && i < |p.slots[s].frames|
      ensures Softened(c, p, 0, CommitEntry(c, p, s, i), 0)
    {
      hide SlotsOk, JobsOk, Progress, Softened;
      assert Fills(c, p, s, i, p.slots[s].frames[i]);
      SoftenedCommit(c, p, s, i);
    }

    /** `hide_pump` for frames filled in place: commit each page as it becomes ready. */
    method PumpDirect(s: nat)
      requires Good() && s < |slot| && slot[s].active && slot[s].direct
      modifies this`slot, this`jobs, this`owner, win, win.arena
      ensures Good() && Moved(old(Abs()), Abs(), s) && NotedAll(old(Abs()), Abs(), s, |slot[s].pages|)
      ensures old(win.pageMap.Keys) <= win.pageMap.Keys && Brought(old(Abs()), Abs())
      ensures Softened(win.Cfg(), old(Abs()), 0, Abs(), 0)
      ensures forall i :: 0 <= i < |slot[s].pages| && i < |slot[s].consumed| && slot[s].consumed[i] && !old(slot[s].consumed)[i] ==>
                slot[s].pages[i] in win.pageMap
    {
      hide PipeInv, Work, Good, Flown, InFlight, Brought, Softened;
      ghost var p := Abs();
      MovedSelf(p, s);
      BroughtSelf(p);
      SoftenedSelf(win.Cfg(), p, 0);
      GoodSlot(s);
      for i := 0 to |slot[s].pages|
        invariant Good() && Moved(p, Abs(), s) && NotedAll(p, Abs(), s, i)
        invariant |slot[s].consumed| == |slot[s].pages| == |p.slots[s].consumed|
        invariant p.win.pageMap.Keys <= win.pageMap.Keys && Brought(p, Abs())
        invariant Softened(win.Cfg(), p, 0, Abs(), 0)
        invariant forall x :: 0 <= x < |slot[s].pages| && slot[s].consumed[x] && !p.slots[s].consumed[x] ==> slot[s].pages[x] in win.pageMap
      {
        ghost var q := Abs();
        PumpDirectPage(s, i);
        MovedTwice(p, q, Abs(), s);
        BroughtTwice(p, q, Abs());
        SoftenedTwice(win.Cfg(), p, 0, q, 0, Abs(), 0);
      }
    }

    lemma GoodSlot(s: nat)
      requires Good() && s < |slot|
      ensures SlotOk(win.Cfg(), score, slot[s])
    {
      SlotFacts(win.Cfg(), score, Abs(), s);
    }

    lemma CommitMoves(c: Config, p: Pipe, s: nat, i: nat)
      requires Shape(c, p.win) && s < |p.slots| && i < |p.slots[s].pages| && i < |p.slots[s].frames| && i < |p.slots[s].consumed|
      ensures var q := CommitEntry(c, p, s, i);
        && q.win.pinned == p.win.pinned && q.jobs == p.jobs && q.nextJob == p.nextJob && q.nextTok == p.nextTok
        && (forall page :: page in q.win.pageMap ==> page in p.win.pageMap || page == p.slots[s].pages[i])
        && q.slots[s].consumed == p.slots[s].consumed[i := true] && |q.slots| == |p.slots| && SlotStep(p.slots[s], q.slots[s])
        && forall t :: 0 <= t < |p.slots| && t != s ==> q.slots[t] == p.slots[t]
    {}

    /** Pages noted but not yet counted by the pump of slot `s`. */
    ghost predicate Lagging(s: nat, n: nat)
      reads this
    {
      && s < |slot| && slot[s].active && slot[s].readyN + n == Count(slot[s].consumed)
      && forall t :: 0 <= t < |slot| && t != s && slot[t].active ==> slot[t].readyN == Count(slot[t].consumed)
    }

    /** The `flush` of the staging pump: one locked batch into the window, then the count. */
    method FlushBatch(s: nat, offs: seq<nat>, hosts: seq<Bytes>)
      requires Inv() && Lagging(s, |offs|) && |offs| == |hosts| && score.WindowMode?
      requires forall k :: 0 <= k < |offs| ==> IsPage(win.Cfg(), offs[k]) && hosts[k] == PageAt(win.Cfg(), offs[k])
      requires forall k :: 0 <= k < |offs| ==> offs[k] in slot[s].pages
      modifies this`slot, win, win.arena
      ensures Inv() && Lagging(s, 0)
      ensures Moved(old(Abs()), Abs(), s) && slot[s].consumed == old(slot[s].consumed)
      ensures forall q :: q in win.pageMap ==> q in old(win.pageMap) || q in offs
      ensures win.nFrames > 0 && Shape(win.Cfg(), old(win.Abs())) && win.Abs() == InstallAll(win.Cfg(), old(win.Abs()), offs, hosts, old(slot[s].ttl))
      ensures Softened(win.Cfg(), old(Abs()), |offs|, Abs(), 0)
    {
      hide Valid, SlotsOk, OwnersOk, JobsOk, Progress, Work, Flown, InFlight, Softened, InstallAll;
      ghost var c, p := win.Cfg(), Abs();
      MovedSelf(p, s);
      SoftenedSelf(c, p, 0);
      NoBatch(c, p.win, slot[s].ttl);
      if offs == [] { return; }
      AlwaysIdle(c, score, directInstall, p);
      SlotFacts(c, score, p, s);
      win.InstallFullPages(offs, hosts, slot[s].ttl);
      WindowMoveKeeps(c, score, p, win.Abs());
      assert Abs() == p.(win := win.Abs());
      SoftenedBatch(c, p, s, offs, hosts, win.Abs());
      ghost var r := Abs();
      CountPages(s, |offs|);
      MovedAt(p, p, Abs(), s);
      SoftenedCount(c, r, s, |offs|);
      SoftenedTwice(c, p, |offs|, r, 0, Abs(), 0);
    }

    lemma NoBatch(c: Config, w: Win, t: nat)
      requires Shape(c, w) && c.nFrames > 0
      ensures InstallAll(c, w, [], [], t) == w
    {}

    /** One page's turn when pages arrive in staging memory: add it to the batch if its flag is up. */
    method PumpStagedPage(s: nat, i: nat, offs: seq<nat>, hosts: seq<Bytes>) returns (offs': seq<nat>, hosts': seq<Bytes>)
      requires Inv() && Lagging(s, |offs|) && |offs| == |hosts| && Entry(Abs(), s, i) && !slot[s].direct && score.WindowMode?
      requires forall k :: 0 <= k < |offs| ==> IsPage(win.Cfg(), offs[k]) && hosts[k] == PageAt(win.Cfg(), offs[k])
      modifies this`slot, this`jobs, win.arena
      ensures Inv() && Lagging(s, |offs'|) && |offs'| == |hosts'| && Moved(old(Abs()), Abs(), s)
      ensures forall k :: 0 <= k < |offs'| ==> IsPage(win.Cfg(), offs'[k]) && hosts'[k] == PageAt(win.Cfg(), offs'[k])
      ensures i < |slot[s].consumed| && (EntryReady(old(Abs()), s, i) ==> slot[s].consumed[i])
      ensures offs' == offs || offs' == offs + [slot[s].pages[i]]
      ensures Softened(win.Cfg(), old(Abs()), |offs|, Abs(), |offs'|)
    {
      hide PipeInv, Work, Flown, InFlight, Softened, Moved, Ran;
      ghost var c, p := win.Cfg(), Abs();
      MovedSelf(p, s);
      Interfere();
      MovedRan(p, p, Abs(), s);
      SoftenedRan(c, p, Abs(), |offs|);
      ghost var r := Abs();
      RanSlots(p, r);
      offs', hosts' := NoteStaged(s, i, offs, hosts);
      MovedAt(p, r, Abs(), s);
      SoftenedTwice(c, p, |offs|, r, |offs|, Abs(), |offs'|);
    }

    /** A page whose flag is up is noted and joins the batch, once. */
    method NoteStaged(s: nat, i: nat, offs: seq<nat>, hosts: seq<Bytes>) returns (offs': seq<nat>, hosts': seq<Bytes>)
      requires Inv() && Lagging(s, |offs|) && |offs| == |hosts| && Entry(Abs(), s, i) && !slot[s].direct && score.WindowMode?
      requires forall k :: 0 <= k < |offs| ==> IsPage(win.Cfg(), offs[k]) && hosts[k] == PageAt(win.Cfg(), offs[k])
      modifies this`slot
      ensures Inv() && Lagging(s, |offs'|) && |offs'| == |hosts'| && |slot| == old(|slot|) && SlotStep(old(slot)[s], slot[s])
      ensures forall t :: 0 <= t < |slot| && t != s ==> slot[t] == old(slot)[t]
      ensures forall k :: 0 <= k < |offs'| ==> IsPage(win.Cfg(), offs'[k]) && hosts'[k] == PageAt(win.Cfg(), offs'[k])
      ensures i < |slot[s].consumed| && (EntryReady(old(Abs()), s, i) ==> slot[s].consumed[i])
      ensures offs' == offs || offs' == offs + [slot[s].pages[i]]
      ensures Softened(win.Cfg(), old(Abs()), |offs|, Abs(), |offs'|)
    {
      hide PipeInv, Work, Flown, InFlight, Softened;
      ghost var c, r := win.Cfg(), Abs();
      SlotFacts(c, score, r, s);
      offs', hosts' := offs, hosts;
      SoftenedSame(c, r, r, |offs|);
      if slot[s].consumed[i] { return; }
      if !slot[s].ready[i] { return; }
      StagedReady(c, score, r, s, i);
      SoftenedMark(c, r, s, i, |offs|);
      MarkPage(s, i);
      offs', hosts' := offs + [slot[s].pages[i]], hosts + [slot[s].host[i]];
    }

    /** A batch of ready pages of slot `s`, noted and not yet counted. */
    ghost predicate Batched(s: nat, offs: seq<nat>, hosts: seq<Bytes>)
      reads this, win, win.arena
    {
      && Inv() && Lagging(s, |offs|) && |offs| == |hosts| && score.WindowMode? && !slot[s].direct
      && (forall k :: 0 <= k < |offs| ==> IsPage(win.Cfg(), offs[k]) && hosts[k] == PageAt(win.Cfg(), offs[k]))
      && forall k :: 0 <= k < |offs| ==> offs[k] in slot[s].pages
    }

    /** One page's turn: it may join the batch, and a batch of 256 goes into the window. */
    method PumpStagedTurn(s: nat, i: nat, offs: seq<nat>, hosts: seq<Bytes>) returns (offs': seq<nat>, hosts': seq<Bytes>)
      requires Batched(s, offs, hosts) && Entry(Abs(), s, i)
      modifies this`slot, this`jobs, win, win.arena
      ensures Batched(s, offs', hosts') && Moved(old(Abs()), Abs(), s)
      ensures i < |slot[s].consumed| && (EntryReady(old(Abs()), s, i) ==> slot[s].consumed[i])
      ensures forall q :: q in win.pageMap ==> q in old(win.pageMap) || q in slot[s].pages
      ensures Softened(win.Cfg(), old(Abs()), |offs|, Abs(), |offs'|)
    {
      hide PipeInv, Work, Flown, InFlight, Softened;
      ghost var p := Abs();
      offs', hosts' := PumpStagedPage(s, i, offs, hosts);
      if |offs'| == 256 {
        ghost var r, n := Abs(), |offs'|;
        FlushBatch(s, offs', hosts');
        MovedTwice(p, r, Abs(), s);
        offs', hosts' := [], [];
        SoftenedTwice(win.Cfg(), p, |offs|, r, n, Abs(), 0);
      }
    }

    /** `hide_pump` through staging memory: ready pages go into the window in batches of at most 256. */
    method PumpStaged(s: nat)
      requires Good() && s < |slot| && slot[s].active && !slot[s].direct && score.WindowMode?
      modifies this`slot, this`jobs, win, win.arena
      ensures Good() && Moved(old(Abs()), Abs(), s) && NotedAll(old(Abs()), Abs(), s, |slot[s].pages|)
      ensures forall q :: q in win.pageMap ==> q in old(win.pageMap) || q in slot[s].pages
      ensures Softened(win.Cfg(), old(Abs()), 0, Abs(), 0)
    {
      hide PipeInv, Work, Flown, InFlight, Inv, Softened;
      ghost var p := Abs();
      MovedSelf(p, s);
      SoftenedSelf(win.Cfg(), p, 0);
      var offs: seq<nat>, hosts: seq<Bytes> := [], [];
      for i := 0 to |slot[s].pages|
        invariant Batched(s, offs, hosts) && Moved(p, Abs(), s) && NotedAll(p, Abs(), s, i)
        invariant forall q :: q in win.pageMap ==> q in p.win.pageMap || q in slot[s].pages
        invariant Softened(win.Cfg(), p, 0, Abs(), |offs|)
      {
        ghost var q, n := Abs(), |offs|;
        offs, hosts := PumpStagedTurn(s, i, offs, hosts);
        MovedTwice(p, q, Abs(), s);
        SoftenedTwice(win.Cfg(), p, 0, q, n, Abs(), |offs|);
      }
      ghost var q := Abs();
      FlushBatch(s, offs, hosts);
      MovedTwice(p, q, Abs(), s);
      SoftenedTwice(win.Cfg(), p, 0, q, |offs|, Abs(), 0);
    }

    method HidePump(s: nat)
      requires Good() && s < |slot|
      modifies this`slot, this`jobs, this`owner, win, win.arena
      ensures Good() && Moved(old(Abs()), Abs(), s)
      ensures slot[s].active ==> NotedAll(old(Abs()), Abs(), s, |slot[s].pages|)
      ensures score.WindowMode? ==> Brought(old(Abs()), Abs()) && Softened(win.Cfg(), old(Abs()), 0, Abs(), 0)
    {
      hide PipeInv, Work, Brought, Softened;
      ghost var p := Abs();
      MovedSelf(p, s);
      BroughtSelf(p);
      SoftenedSelf(win.Cfg(), p, 0);
      if !slot[s].active { return; }
      GoodSlot(s);
      if !score.WindowMode? {
        PumpFlags(s);
      } else if slot[s].direct {
        PumpDirect(s);
      } else {
        PumpStaged(s);
        BroughtStaged(p, Abs(), s);
      }
    }

    /** Forget a slot that has delivered everything. */
    method Clear(s: nat)
      requires Good() && s < |slot|
      requires slot[s].active ==> forall i :: 0 <= i < |slot[s].pages| ==> EntryReady(Abs(), s, i)
      requires slot[s].active && slot[s].direct ==> slot[s].readyN >= |slot[s].pages|
      modifies this`slot
      ensures Good() && Abs() == ClearSlot(old(Abs()), s)
      ensures forall id :: id in jobs ==> jobs[id].slot != s
    {
      hide PipeInv, Work;
      GoodSlot(s);
      if slot[s].active {
        CountBound(slot[s].consumed);
        CountFull(slot[s].consumed);
      }
      ClearSlotKeeps(win.Cfg(), score, Abs(), s);
      slot := slot[s := Cleared(slot[s])];
    }

    /** A slot that a pump leaves incomplete had work left when the pump began. */
    lemma StillWaiting(p: Pipe, s: nat)
      requires PipeInv(win.Cfg(), score, p) && Good() && Moved(p, Abs(), s) && slot[s].active
      requires NotedAll(p, Abs(), s, |slot[s].pages|) && slot[s].readyN < |slot[s].pages|
      ensures Work(p) > 0 && !AllReady(p, s)
    {
      hide Valid, OwnersOk, JobsOk, Progress, Work;
      GoodSlot(s);
      SlotFacts(win.Cfg(), score, p, s);
      CountFull(slot[s].consumed);
      var i: nat :| i < |slot[s].consumed| && !slot[s].consumed[i];
      assert AllReady(p, s) ==> ReadyAt(p.slots[s], i) && EntryReady(p, s, i);
      if Work(p) == 0 { NoWorkAllReady(win.Cfg(), score, p, s, i); }
    }

    lemma ReadyStays(p: Pipe, q: Pipe, s: nat)
      requires Pumped(p, q) && s < |p.slots| && q.slots[s].active && AllReady(p, s)
      ensures AllReady(q, s)
    {
      ReadySlot(p.slots[s], q.slots[s]);
    }

    static lemma ReadySlot(a: Slot, b: Slot)
      requires SlotStep(a, b) && forall i: nat :: i < |a.pages| ==> ReadyAt(a, i)
      ensures forall i: nat :: i < |b.pages| ==> ReadyAt(b, i)
    {
      forall i: nat | i < |b.pages| ensures ReadyAt(b, i) { assert ReadyAt(a, i); }
    }

    /** A complete slot may be cleared: every page noted, so every flag up. */
    lemma Complete(s: nat)
      requires Good() && s < |slot| && slot[s].active && slot[s].readyN >= |slot[s].pages|
      ensures |slot[s].consumed| == |slot[s].pages|
      ensures forall i :: 0 <= i < |slot[s].pages| ==> EntryReady(Abs(), s, i) && slot[s].consumed[i]
    {
      hide PipeInv, Work;
      GoodSlot(s);
      CountBound(slot[s].consumed);
      CountFull(slot[s].consumed);
    }

    /** One slot's turn in `pump`: in window mode a complete slot is given back. */
    method PumpSlot(s: nat, ghost p: Pipe)
      requires Good() && s < |slot| && Pumped(p, Abs())
      modifies this`slot, this`jobs, this`owner, win, win.arena
      ensures Good() && Pumped(p, Abs()) && |slot| == old(|slot|)
      ensures forall t :: 0 <= t < |slot| && t != s ==> SlotRan(old(slot)[t], slot[t])
      ensures score.WindowMode? && slot[s].active ==> slot[s].readyN < |slot[s].pages| && !AllReady(p, s) && Work(p) > 0
      ensures !score.WindowMode? ==> slot[s].active == old(slot)[s].active
      ensures score.WindowMode? ==> Brought(old(Abs()), Abs()) && Softened(win.Cfg(), old(Abs()), 0, Abs(), 0)
    {
      hide PipeInv, Work, AllReady, Flown, InFlight, NotedAll, Good, Pumped, SlotRan, SlotStep, Brought, Softened;
      ghost var q := Abs();
      GoodInv();
      HidePump(s);
      ghost var r := Abs();
      MovedActive(q, r, s);
      PumpedMoved(p, q, r, s);
      if score.WindowMode? && slot[s].active && slot[s].readyN >= |slot[s].pages| {
        Complete(s);
        Clear(s);
        PumpedClear(p, r, s);
        BroughtClear(r, s);
        BroughtTwice(q, r, Abs());
        SoftenedClear(win.Cfg(), r, s, 0);
        SoftenedTwice(win.Cfg(), q, 0, r, 0, Abs(), 0);
      } else if score.WindowMode? && slot[s].active {
        WaitingSlot(p, q, s);
      }
    }

    lemma GoodInv()
      requires Good()
      ensures PipeInv(win.Cfg(), score, Abs())
    {}

    static lemma MovedActive(p: Pipe, q: Pipe, s: nat)
      requires Moved(p, q, s)
      ensures |q.slots| == |p.slots| && q.slots[s].active == p.slots[s].active
      ensures forall t :: 0 <= t < |p.slots| && t != s ==> SlotRan(p.slots[t], q.slots[t])
    {}

    /** A slot left incomplete had a flag down, and work left, when the pump began. */
    lemma WaitingSlot(p: Pipe, q: Pipe, s: nat)
      requires Pumped(p, q) && PipeInv(win.Cfg(), score, q) && Good() && Moved(q, Abs(), s) && slot[s].active
      requires NotedAll(q, Abs(), s, |slot[s].pages|) && slot[s].readyN < |slot[s].pages|
      ensures Work(p) > 0 && !AllReady(p, s)
    {
      hide PipeInv, Work, Flown;
      StillWaiting(q, s);
      if AllReady(p, s) { ReadyStays(p, q, s); }
    }

    /** One pump of every slot; in window mode exactly the complete slots are given back. */
    method Pump()
      requires Good()
      modifies this`slot, this`jobs, this`owner, win, win.arena
      ensures Good() && Pumped(old(Abs()), Abs())
      ensures score.WindowMode? && old(Work(Abs())) == 0 ==> forall s :: 0 <= s < |slot| ==> !slot[s].active
      ensures score.WindowMode? ==> forall s :: 0 <= s < |slot| && slot[s].active ==> slot[s].readyN < |slot[s].pages| && !AllReady(old(Abs()), s)
      ensures !score.WindowMode? ==> SameActive(old(Abs()), Abs())
      ensures score.WindowMode? ==> Brought(old(Abs()), Abs()) && Softened(win.Cfg(), old(Abs()), 0, Abs(), 0)
    {
      hide PipeInv, Work, AllReady, Flown, InFlight, Good, Pumped, Brought, Softened;
      ghost var p := Abs();
      GoodCount();
      PumpedSelf(p);
      BroughtSelf(p);
      SoftenedSelf(win.Cfg(), p, 0);
      for s := 0 to 32
        invariant Good() && Pumped(p, Abs()) && |slot| == 32
        invariant score.WindowMode? ==> forall t :: 0 <= t < s && slot[t].active ==> slot[t].readyN < |slot[t].pages| && !AllReady(p, t) && Work(p) > 0
        invariant !score.WindowMode? ==> forall t :: 0 <= t < |slot| ==> slot[t].active == p.slots[t].active
        invariant score.WindowMode? ==> Brought(p, Abs()) && Softened(win.Cfg(), p, 0, Abs(), 0)
      {
        ghost var q := Abs();
        PumpSlot(s, p);
        if score.WindowMode? {
          BroughtTwice(p, q, Abs());
          SoftenedTwice(win.Cfg(), p, 0, q, 0, Abs(), 0);
        }
        assert forall t :: 0 <= t < |slot| && t != s ==> SlotRan(q.slots[t], slot[t]);
      }
    }

    lemma GoodCount()
      requires Good()
      ensures |slot| == 32
    {
      InvSlotCount(win.Cfg(), score, Abs());
    }

    /** `hide_wait`: pump one slot until it is complete.  Ends because yielding lets work proceed. */
    method HideWait(s: nat)
      requires Good() && s < |slot|
      modifies this`slot, this`jobs, this`owner, win, win.arena
      ensures Good() && Pumped(old(Abs()), Abs())
      ensures score.WindowMode? ==> !slot[s].active
      ensures old(slot)[s].active && !score.WindowMode? ==> slot[s].active && slot[s].readyN >= |slot[s].pages|
    {
      hide PipeInv, Work;
      if !slot[s].active { return; }
      ghost var p := Abs();
      while slot[s].readyN < |slot[s].pages|
        invariant Good() && |slot| == |p.slots| && slot[s].active && Pumped(p, Abs())
        decreases Work(Abs()), |slot[s].pages| - slot[s].readyN
      {
        ghost var q := Abs();
        HidePump(s);
        ghost var r := Abs();
        PumpedMoved(p, q, r, s);
        if slot[s].readyN < |slot[s].pages| {
          StillWaiting(q, s);
          Yield();
          RanCounted(r, Abs());
          PumpedRan(p, r, Abs());
          NoJobsNoWork(r);
          assert SlotRan(r.slots[s], Abs().slots[s]);
        }
      }
      ghost var q := Abs();
      HidePump(s);
      PumpedMoved(p, q, Abs(), s);
      ghost var r := Abs();
      WaitDone(q, s);
      if score.WindowMode? {
        Complete(s);
        Clear(s);
        SameWork(r, Abs());
      }
    }

    lemma NoJobsNoWork(p: Pipe)
      ensures p.jobs == map[] ==> Work(p) == 0
    {
      if p.jobs == map[] { EmptyWork(p.nextJob); }
    }

    /** Pumping a complete slot leaves it complete. */
    lemma WaitDone(q: Pipe, s: nat)
      requires PipeInv(win.Cfg(), score, q) && Counted(q) && Good() && Moved(q, Abs(), s) && slot[s].active
      requires q.slots[s].readyN >= |q.slots[s].pages|
      ensures slot[s].readyN >= |slot[s].pages|
    {
      hide Valid, OwnersOk, JobsOk, Progress, Work;
      GoodSlot(s);
      SlotFacts(win.Cfg(), score, q, s);
      CountBound(q.slots[s].consumed);
      CountMonotone(q.slots[s].consumed, slot[s].consumed);
    }

    // ---------------------------------------------------------- issuing

    /** Is a page listed by an active slot? */
    method PageInSlot(page: nat) returns (b: bool)
      requires Good()
      ensures b == InFlight(Abs(), page)
    {
      for s := 0 to |slot|
        invariant forall t: nat, i: nat :: t < s && Entry(Abs(), t, i) ==> slot[t].pages[i] != page
      {
        if slot[s].active {
          for i := 0 to |slot[s].pages|
            invariant forall j: nat :: j < i && Entry(Abs(), s, j) ==> slot[s].pages[j] != page
          {
            if slot[s].pages[i] == page {
              assert Entry(Abs(), s, i);
              return true;
            }
          }
        }
      }
      return false;
    }

    /** The pages worth fetching, each once: not resident when the window is in use, not already in flight. */
    method CollectMiss(pages: seq<nat>) returns (miss: seq<nat>)
      requires Good() && forall i :: 0 <= i < |pages| ==> IsPage(win.Cfg(), pages[i])
      ensures Distinct(miss) && |miss| <= |pages|
      ensures forall p :: p in miss <==> p in pages && !(score.WindowMode? && p in win.pageMap) && !InFlight(Abs(), p)
      ensures Misses(score, Abs(), pages, miss)
    {
      hide PipeInv, Work;
      miss := [];
      var uniq: set<nat> := {};
      for k := 0 to |pages|
        invariant Distinct(miss) && |miss| <= k
        invariant forall p :: p in uniq <==> p in pages[..k]
        invariant forall p :: p in miss <==> p in pages[..k] && !(score.WindowMode? && p in win.pageMap) && !InFlight(Abs(), p)
      {
        var p := pages[k];
        assert pages[..k + 1] == pages[..k] + [p];
        if p in uniq { continue; }
        uniq := uniq + {p};
        if score.WindowMode? {
          var res := win.IsResident(p, 1);
          AlignedSpan(p);
          if res { continue; }
        }
        var busy := PageInSlot(p);
        if busy { continue; }
        miss := miss + [p];
      }
      assert pages[..|pages|] == pages;
    }

    lemma AlignedSpan(p: nat)
      requires win.Sized() && IsPage(win.Cfg(), p)
      ensures SpanResident(win.Cfg(), win.Abs(), p, 1) <==> p in win.pageMap
    {
      PageDownOf(p, win.pageBytes);
      assert PageOff(p / win.pageBytes, win.pageBytes) == p;
    }

    /** The pages `hide_issue` still has to fetch: repeats and resident pages are dropped. */
    method DropResident(pages: seq<nat>) returns (miss: seq<nat>)
      requires Good() && forall i :: 0 <= i < |pages| ==> IsPage(win.Cfg(), pages[i])
      ensures Distinct(miss) && |miss| <= |pages|
      ensures forall p :: p in miss <==> p in pages && !(score.WindowMode? && p in win.pageMap)
    {
      hide PipeInv, Work;
      miss := [];
      var uniq: set<nat> := {};
      for k := 0 to |pages|
        invariant Distinct(miss) && |miss| <= k
        invariant forall p :: p in uniq <==> p in pages[..k]
        invariant forall p :: p in miss <==> p in pages[..k] && !(score.WindowMode? && p in win.pageMap)
      {
        var p := pages[k];
        assert pages[..k + 1] == pages[..k] + [p];
        if p in uniq { continue; }
        uniq := uniq + {p};
        if score.WindowMode? {
          var res := win.IsResident(p, 1);
          AlignedSpan(p);
          if res { continue; }
        }
        miss := miss + [p];
      }
      assert pages[..|pages|] == pages;
    }

    /** Reserve a frame for every page of the wave, and start the fill if any was needed. */
    method IssueDirect(s: nat, miss: seq<nat>, ttl: nat)
      requires Good() && s < |slot| && !slot[s].active && score.WindowMode? && directInstall && Askable(win.Cfg(), miss)
      modifies this, win, win.arena
      ensures Inv() && Abs() == StartDirect(win.Cfg(), old(Abs()), s, miss, ttl)
      ensures forall k :: 0 <= k < |slot[s].pages| ==> slot[s].pages[k] in miss
    {
      hide PipeInv, Reserve, Work;
      ghost var c, p := win.Cfg(), Abs();
      GoodSlot(s);
      StartDirectKeeps(c, p, s, miss, ttl);
      var pages: seq<nat>, frames: seq<nat> := [], [];
      for k := 0 to |miss|
        invariant win.Sized() && slot == p.slots && jobs == p.jobs && nextJob == p.nextJob && nextTok == p.nextTok && owner == p.owner
        invariant (win.Abs(), pages, frames) == ReserveAll(c, p.win, miss[..k])
      {
        assert miss[..k + 1][..k] == miss[..k];
        var r := win.ReserveFill(miss[k]);
        if r.Some? {
          pages := pages + [miss[k]];
          frames := frames + [r.value];
        }
      }
      assert miss[..|miss|] == miss;
      if pages == [] {
        slot := slot[s := Cleared(slot[s]).(direct := true)];
        return;
      }
      Activate(s, Slot(pages, [], frames, seq(|pages|, _ => false), seq(|pages|, _ => false), 0, ttl, true, true, nextTok));
      owner := owner + Owners(s, frames);
    }

    /** The slot is filled in and its chunk jobs are handed to the pool. */
    method Activate(s: nat, sl: Slot)
      requires s < |slot|
      modifies this`slot, this`jobs, this`nextJob, this`nextTok
      ensures slot == old(slot)[s := sl]
      ensures jobs == old(jobs) + Chunks(old(nextJob), s, 0, |sl.pages|)
      ensures nextJob == old(nextJob) + ChunkCount(0, |sl.pages|) && nextTok == old(nextTok) + 1
    {
      slot := slot[s := sl];
      nextTok := nextTok + 1;
      QueueJobs(s, |sl.pages|);
    }

    /** One job for every run of up to 32 pages. */
    method QueueJobs(s: nat, n: nat)
      modifies this`jobs, this`nextJob
      ensures jobs == old(jobs) + Chunks(old(nextJob), s, 0, n)
      ensures nextJob == old(nextJob) + ChunkCount(0, n)
    {
      var off := 0;
      while off < n
        invariant off <= n && nextJob + ChunkCount(off, n) == old(nextJob) + ChunkCount(0, n)
        invariant jobs + Chunks(nextJob, s, off, n) == old(jobs) + Chunks(old(nextJob), s, 0, n)
      {
        var len := if n - off < CHUNK then n - off else CHUNK;
        ChunkFirst(jobs, nextJob, s, off, n, len);
        jobs := jobs[nextJob := Job(s, off, len, Writing)];
        nextJob := nextJob + 1;
        off := off + len;
      }
    }

    static lemma ChunkFirst(jobs: map<nat, Job>, first: nat, s: nat, off: nat, n: nat, len: nat)
      requires off < n && len == if n - off < CHUNK then n - off else CHUNK
      ensures jobs + Chunks(first, s, off, n) == jobs[first := Job(s, off, len, Writing)] + Chunks(first + 1, s, off + len, n)
    {
      ChunksCover(first + 1, s, off + len, n);
      assert first !in Chunks(first + 1, s, off + len, n);
    }

    method IssueStaged(s: nat, miss: seq<nat>, ttl: nat)
      requires Good() && s < |slot| && !slot[s].active && Askable(win.Cfg(), miss)
      modifies this`slot, this`jobs, this`nextJob, this`nextTok
      ensures Inv() && Abs() == StartStaged(win.Cfg(), score, old(Abs()), s, miss, ttl)
    {
      hide PipeInv, Work;
      var n, pb := |miss|, win.pageBytes;
      StartStagedKeeps(win.Cfg(), score, Abs(), s, miss, ttl);
      var host: seq<Bytes> := if score.Vmem? then [] else seq(n, _ => seq(pb, _ => 0));
      Activate(s, Slot(miss, host, [], seq(n, _ => false), seq(n, _ => false), 0, ttl, true, false, nextTok));
    }

    /** What a fresh fill in slot `s` looks like to the owner. */
    twostate predicate FreshFill(s: nat, pages: seq<nat>, ttl: nat)
      reads this
    {
      && s < |slot| == old(|slot|) && (forall t :: 0 <= t < |slot| && t != s ==> slot[t] == old(slot)[t])
      && (slot[s].active ==>
            && slot[s].tok == old(nextTok) && nextTok == old(nextTok) + 1 && slot[s].pages != []
            && (forall k :: 0 <= k < |slot[s].pages| ==> slot[s].pages[k] in pages)
            && Distinct(slot[s].pages)
            && slot[s].ttl == ttl && slot[s].direct == (score.WindowMode? && directInstall) && slot[s].readyN == 0
            && |slot[s].ready| == |slot[s].consumed| == |slot[s].pages|
            && forall k :: 0 <= k < |slot[s].pages| ==> !slot[s].ready[k] && !slot[s].consumed[k])
      && (!slot[s].active ==> nextTok == old(nextTok))
    }

    /** `hide_issue`: start fetching what is missing into an idle slot. */
    method HideIssue(s: nat, pages: seq<nat>, ttl: nat)
      requires Good() && s < |slot| && !slot[s].active && |pages| <= MAX_PAGES
      requires forall i :: 0 <= i < |pages| ==> IsPage(win.Cfg(), pages[i])
      modifies this, win, win.arena
      ensures Good() && FreshFill(s, pages, ttl)
      ensures !score.WindowMode? && pages != [] ==> slot[s].active && forall p :: p in pages ==> p in slot[s].pages
      ensures score.WindowMode? ==> forall p :: p in pages && p !in old(win.pageMap) ==> slot[s].active && p in slot[s].pages
    {
      hide PipeInv, Work, ReserveAll, Chunks, ChunkCount, Owners, Roomy;
      var miss := DropResident(pages);
      if miss == [] {
        assert pages != [] ==> pages[0] in pages;
        return;
      }
      assert forall i :: 0 <= i < |miss| ==> miss[i] in pages;
      if score.WindowMode? && directInstall {
        GoodSlot(s);
        ReserveDistinct(win.Abs(), miss, s);
        WholeWave(Abs(), s, miss, ttl);
        IssueDirect(s, miss, ttl);
      } else {
        IssueStaged(s, miss, ttl);
      }
      FreshCount(s);
    }

    lemma FreshCount(s: nat)
      requires s < |slot| && (slot[s].active ==> slot[s].readyN == 0 && slot[s].consumed == seq(|slot[s].pages|, _ => false))
      ensures slot[s].active ==> slot[s].readyN == Count(slot[s].consumed)
    {
      CountNone(|slot[s].pages|);
    }

    lemma ReserveDistinct(w: Win, miss: seq<nat>, s: nat)
      requires Inv() && w == win.Abs() && s < |slot| && !slot[s].active && Askable(win.Cfg(), miss) && Distinct(miss) && score.WindowMode? && directInstall
      ensures Distinct(ReserveAll(win.Cfg(), w, miss).1)
    {
      hide MapInv, FlagInv, PinInv, SoftInv, BytesInv, SlotsOk, OwnersOk, JobsOk, Progress, ReserveAll;
      FillsBoundFree(win.Cfg(), score, Abs(), s);
      ReserveAllValid(win.Cfg(), w, miss);
    }

    /** A wave of pages none of which is resident is the new fill, whole. */
    lemma WholeWave(p: Pipe, s: nat, miss: seq<nat>, ttl: nat)
      requires Shape(win.Cfg(), p.win) && win.nFrames > 0 && s < |p.slots| && miss != [] && forall i :: 0 <= i < |miss| ==> miss[i] !in p.win.pageMap
      ensures var q := StartDirect(win.Cfg(), p, s, miss, ttl); q.slots[s].active && q.slots[s].pages == miss
    {
      ReserveAllTakes(win.Cfg(), p.win, miss);
    }

    method FindIdle() returns (r: Option<nat>)
      ensures r.Some? ==> r.value < |slot| && !slot[r.value].active
      ensures r.None? ==> forall s :: 0 <= s < |slot| ==> slot[s].active
    {
      for s := 0 to |slot|
        invariant forall t :: 0 <= t < s ==> slot[t].active
      {
        if !slot[s].active { return Some(s); }
      }
      return None;
    }

    /** The slot with the most pages delivered, the last of them on a tie. */
    method Fullest() returns (best: nat)
      requires |slot| > 0
      ensures best < |slot| && forall s :: 0 <= s < |slot| ==> slot[s].readyN <= slot[best].readyN
      ensures forall s :: best < s < |slot| ==> slot[s].readyN < slot[best].readyN
    {
      best := 0;
      for i := 1 to |slot|
        invariant best < i && forall s :: 0 <= s < i ==> slot[s].readyN <= slot[best].readyN
        invariant forall s :: best < s < i ==> slot[s].readyN < slot[best].readyN
      {
        if slot[i].readyN >= slot[best].readyN { best := i; }
      }
    }

    ghost predicate HasIdleSlot()
      reads this
    {
      exists s :: 0 <= s < |slot| && !slot[s].active
    }

    /** The asked pages that no slot has, and the slots there are for them. */
    ghost function Left(need: seq<nat>): nat
      reads this, win, win.arena
    {
      |Missing(Abs(), need)|
    }

    ghost function Spare(): nat
      reads this
    {
      IdleSlots(slot)
    }

    /** An idle slot, waiting for the fullest one if asked to and the window is in use. */
    method TakeSlot(stallIfFull: bool) returns (r: Option<nat>)
      requires Good() && (stallIfFull && !score.WindowMode? ==> HasIdleSlot())
      modifies this`slot, this`jobs, this`owner, win, win.arena
      ensures Good() && Pumped(old(Abs()), Abs())
      ensures !score.WindowMode? ==> Abs() == old(Abs())
      ensures r.Some? ==> r.value < |slot| && !slot[r.value].active
      ensures stallIfFull || old(HasIdleSlot()) ==> r.Some?
    {
      hide PipeInv, Work;
      r := FindIdle();
      if r.None? && stallIfFull {
        InvSlotCount(win.Cfg(), score, Abs());
        var best := Fullest();
        HideWait(best);
        r := Some(best);
      }
    }

    /** What `issue` leaves unfetched: nothing up to 1024 pages, and that many fewer beyond. */
    static ghost predicate Fetched(q: Pipe, need: seq<nat>, before: nat) {
      if before <= MAX_PAGES then Missing(q, need) == {} else |Missing(q, need)| + MAX_PAGES <= before
    }

    /** The asked pages that were neither resident nor in flight are in flight. */
    static ghost predicate Flying(p: Pipe, q: Pipe, need: seq<nat>) {
      forall x :: x in need && x !in p.win.pageMap && !InFlight(p, x) ==> InFlight(q, x)
    }

    /** The pages found missing, in one new fill of at most 1024, if a slot can be had. */
    method IssueWave(miss: seq<nat>, ttl: nat, stallIfFull: bool) returns (tok: nat)
      requires Good() && NoDup(Abs()) && (stallIfFull && !score.WindowMode? ==> HasIdleSlot())
      requires miss != [] && forall i :: 0 <= i < |miss| ==> IsPage(win.Cfg(), miss[i])
      requires forall x :: x in miss ==> !(score.WindowMode? && x in win.pageMap) && !InFlight(Abs(), x)
      modifies this, win, win.arena
      ensures Good() && NoDup(Abs())
      ensures nextTok == old(nextTok) + (if tok == 0 then 0 else 1)
      ensures tok != 0 ==> tok == old(nextTok) && exists s :: Holds(s, tok, miss, ttl)
      ensures !score.WindowMode? ==> Kept(old(Abs()), Abs()) && Spare() == old(Spare()) - (if tok == 0 then 0 else 1)
      ensures stallIfFull || old(HasIdleSlot()) ==> forall x :: x in FirstWave(miss) ==> InFlight(Abs(), x)
    {
      hide PipeInv, Work, Good, Flown, InFlight, Raised, NoDup, IdleSlots;
      ghost var p1 := Abs();
      GoodToken();
      var dst := TakeSlot(stallIfFull);
      ghost var p2 := Abs();
      PumpedFor(p1, p2);
      if dst.None? { return 0; }
      var s := dst.value;
      var wave := FirstWave(miss);
      forall x | x in wave ensures x in miss { FirstOf(miss, x); }
      forall x | x in wave && score.WindowMode? ensures x !in p2.win.pageMap { FirstOf(miss, x); NotFlown(p1, p2, x); }
      assert forall i :: 0 <= i < |wave| ==> wave[i] in wave && wave[i] in miss;
      HideIssue(s, wave, ttl);
      FreshNoDup(p2, Abs(), s);
      FreshKeepsRaised(p2, Abs(), s);
      OneUsed(p2.slots, slot, s);
      if slot[s].active {
        tok := slot[s].tok;
        assert Holds(s, tok, miss, ttl);
      } else {
        tok := 0;
      }
    }

    static function FirstWave(miss: seq<nat>): (r: seq<nat>)
      ensures |r| <= MAX_PAGES
    {
      if |miss| > MAX_PAGES then miss[..MAX_PAGES] else miss
    }

    static lemma FirstOf(miss: seq<nat>, x: nat)
      requires x in FirstWave(miss)
      ensures x in miss
    {}

    static lemma NotFlown(p: Pipe, q: Pipe, x: nat)
      requires Flown(p, q) && x !in p.win.pageMap && !InFlight(p, x)
      ensures x !in q.win.pageMap
    {}

    /** Flights and raised flags are kept. */
    static ghost predicate Kept(p: Pipe, q: Pipe) {
      && (forall x :: InFlight(p, x) ==> InFlight(q, x))
      && (forall x :: Raised(p, x) ==> Raised(q, x))
    }

    /**
     `issue`: fetch what is neither resident nor in flight, in one new fill of
     at most 1024 pages.  Zero means nothing was started.  Away from the window
     a stalling call with a page missing asks for an idle slot: without one the
     source's loop never ends (`StallEndsIff`).
     */
    method Issue(pages: seq<nat>, ttl: nat, stallIfFull: bool) returns (tok: nat)
      requires Good() && NoDup(Abs()) && (stallIfFull && !score.WindowMode? ==> HasIdleSlot() || AllInFlight(pages))
      requires forall i :: 0 <= i < |pages| ==> IsPage(win.Cfg(), pages[i])
      modifies this, win, win.arena
      ensures Good() && NoDup(Abs())
      ensures nextTok == old(nextTok) + (if tok == 0 then 0 else 1)
      ensures tok != 0 ==> tok == old(nextTok) && exists s :: Holds(s, tok, pages, ttl)
      ensures !score.WindowMode? ==> Kept(old(Abs()), Abs()) && Spare() == old(Spare()) - (if tok == 0 then 0 else 1)
      ensures !score.WindowMode? && (stallIfFull || old(HasIdleSlot())) ==> Fetched(Abs(), pages, old(Left(pages)))
      ensures score.WindowMode? && |pages| <= MAX_PAGES && (stallIfFull || old(HasIdleSlot())) ==> Flying(old(Abs()), Abs(), pages)
    {
      hide PipeInv, Work, Good, Flown, InFlight, Raised, NoDup, IdleSlots, Misses, Pumped, SameActive, Flying, Brought;
      ghost var p0 := Abs();
      GoodToken();
      Pump();
      ghost var p1 := Abs();
      PumpedFor(p0, p1);
      SomeIdle(p0.slots);
      SomeIdle(p1.slots);
      var miss := CollectMiss(pages);
      CollectedFacts(score, p0, p1, pages, miss);
      if miss == [] {
        NothingToFetch(score, p0, p1, pages, miss);
        return 0;
      }
      assert forall i :: 0 <= i < |miss| ==> miss[i] in miss && miss[i] in pages;
      tok := IssueWave(miss, ttl, stallIfFull);
      if tok != 0 { HoldsMore(tok, miss, pages, ttl); }
      if stallIfFull || old(HasIdleSlot()) { WaveOut(score, p0, p1, Abs(), pages, miss); }
    }

    lemma HoldsMore(tok: nat, miss: seq<nat>, pages: seq<nat>, ttl: nat)
      requires (exists s :: Holds(s, tok, miss, ttl)) && forall x :: x in miss ==> x in pages
      ensures exists s :: Holds(s, tok, pages, ttl)
    {
      var s :| Holds(s, tok, miss, ttl);
      assert Holds(s, tok, pages, ttl);
    }

    /** What the list of missing pages says about the state before the pump. */
    static lemma CollectedFacts(m: Mode, p0: Pipe, p1: Pipe, pages: seq<nat>, miss: seq<nat>)
      requires Pumped(p0, p1) && Misses(m, p1, pages, miss) && (!m.WindowMode? ==> SameActive(p0, p1))
      ensures forall x :: x in miss ==> x in pages && !(m.WindowMode? && x in p1.win.pageMap) && !InFlight(p1, x)
      ensures !m.WindowMode? ==> |miss| == |Missing(p0, pages)| == |Missing(p1, pages)|
      ensures !m.WindowMode? ==> (miss == [] <==> forall x :: x in pages ==> InFlight(p0, x))
    {
      if !m.WindowMode? {
        PumpedFlights(p0, p1);
        PumpedKeepsFlights(p0, p1);
        SameMissing(p0, p1, pages);
        MissesCard(m, p1, pages, miss);
      }
    }

    static lemma NothingToFetch(m: Mode, p0: Pipe, p1: Pipe, pages: seq<nat>, miss: seq<nat>)
      requires Pumped(p0, p1) && Misses(m, p1, pages, miss) && miss == [] && (!m.WindowMode? ==> SameActive(p0, p1))
      ensures m.WindowMode? ==> Flying(p0, p1, pages)
      ensures !m.WindowMode? ==> Fetched(p1, pages, |Missing(p0, pages)|)
    {
      PumpedFlights(p0, p1);
      if m.WindowMode? {
        AllMissing(m, p0, p1, pages, miss);
      } else {
        CollectedFacts(m, p0, p1, pages, miss);
      }
    }

    static lemma AllMissing(m: Mode, p0: Pipe, p1: Pipe, pages: seq<nat>, miss: seq<nat>)
      requires Pumped(p0, p1) && Misses(m, p1, pages, miss)
      ensures forall x :: x in pages && x !in p0.win.pageMap && !InFlight(p0, x) ==> x in miss
    {
      PumpedFlights(p0, p1);
      forall x | x in pages && x !in p0.win.pageMap && !InFlight(p0, x) ensures x in miss { StillMissing(m, p0, p1, pages, miss, x); }
    }

    static lemma WaveOut(m: Mode, p0: Pipe, p1: Pipe, q: Pipe, pages: seq<nat>, miss: seq<nat>)
      requires Pumped(p0, p1) && Misses(m, p1, pages, miss) && |miss| <= |pages| && (!m.WindowMode? ==> SameActive(p0, p1) && Kept(p1, q))
      requires forall x :: x in FirstWave(miss) ==> InFlight(q, x)
      ensures m.WindowMode? && |pages| <= MAX_PAGES ==> Flying(p0, q, pages)
      ensures !m.WindowMode? ==> Fetched(q, pages, |Missing(p0, pages)|)
    {
      PumpedFlights(p0, p1);
      if m.WindowMode? && |pages| <= MAX_PAGES {
        forall x | x in pages && x !in p0.win.pageMap && !InFlight(p0, x) ensures InFlight(q, x) { StillMissing(m, p0, p1, pages, miss, x); }
      }
      if !m.WindowMode? {
        CollectedFacts(m, p0, p1, pages, miss);
        WaveFetched(m, p1, q, pages, miss, |FirstWave(miss)|);
      }
    }

    /** What a pump or a wait keeps for the rest of `issue`. */
    lemma PumpedFor(p: Pipe, q: Pipe)
      requires Pumped(p, q) && NoDup(p)
      ensures NoDup(q) && (forall page :: InFlight(q, page) ==> InFlight(p, page)) && Flown(p, q)
      ensures IdleSlots(p.slots) > 0 ==> IdleSlots(q.slots) > 0
      ensures SameActive(p, q) ==>
        && (forall page :: InFlight(p, page) ==> InFlight(q, page)) && (forall page :: Raised(p, page) ==> Raised(q, page))
        && IdleSlots(q.slots) == IdleSlots(p.slots)
    {
      PumpedNoDup(p, q);
      SomeIdle(p.slots);
      SomeIdle(q.slots);
      if SameActive(p, q) {
        PumpedKeepsFlights(p, q);
        PumpedKeepsRaised(p, q);
        SameIdle(p.slots, q.slots);
      }
    }

    lemma GoodToken()
      requires Good()
      ensures nextTok > 0
    {}

    /** Slot `s` is the fill with this token, asks for that many hops, and fetches only requested pages. */
    ghost predicate Holds(s: nat, tok: nat, pages: seq<nat>, ttl: nat)
      reads this
    {
      s < |slot| && slot[s].active && slot[s].tok == tok && slot[s].ttl == ttl && forall k :: 0 <= k < |slot[s].pages| ==> slot[s].pages[k] in pages
    }

    // ---------------------------------------------------------- covering and release

    /** What `covers` asks: residency when scoring reads the window, a raised flag otherwise. */
    ghost predicate Covering(page: nat)
      reads this, win, win.arena
    {
      if score.WindowMode? then page in win.pageMap else Raised(Abs(), page)
    }

    /** `page_ready`: look through every active slot for the page with its flag up. */
    method PageReady(page: nat) returns (b: bool)
      requires Good()
      ensures b == Raised(Abs(), page)
    {
      hide PipeInv, Work;
      for s := 0 to |slot|
        invariant forall t: nat, i: nat :: t < s && EntryReady(Abs(), t, i) ==> slot[t].pages[i] != page
      {
        if slot[s].active {
          GoodSlot(s);
          for i := 0 to |slot[s].pages|
            invariant forall j: nat :: j < i && EntryReady(Abs(), s, j) ==> slot[s].pages[j] != page
          {
            if slot[s].pages[i] == page && slot[s].ready[i] {
              assert EntryReady(Abs(), s, i);
              return true;
            }
          }
        }
      }
      return false;
    }

    method Covers(page: nat) returns (b: bool)
      requires Good() && IsPage(win.Cfg(), page)
      ensures b == Covering(page)
    {
      hide PipeInv, Work;
      if score.WindowMode? {
        b := win.IsResident(page, 1);
        AlignedSpan(page);
      } else {
        b := PageReady(page);
      }
    }

    /** `covers` of a whole need list. */
    method CoversAll(need: seq<nat>) returns (b: bool)
      requires Good() && forall i :: 0 <= i < |need| ==> IsPage(win.Cfg(), need[i])
      ensures b <==> forall p :: p in need ==> Covering(p)
    {
      for k := 0 to |need|
        invariant forall j :: 0 <= j < k ==> Covering(need[j])
      {
        var c := Covers(need[k]);
        if !c { return false; }
      }
      return true;
    }

    /** Drop the pages that cover, and list those no slot has. */
    method Sift(need: seq<nat>) returns (rest: seq<nat>, orphans: seq<nat>)
      requires Good() && forall i :: 0 <= i < |need| ==> IsPage(win.Cfg(), need[i])
      ensures |rest| <= |need| && forall p :: p in rest <==> p in need && !Covering(p)
      ensures |orphans| <= |rest| && forall p :: p in orphans <==> p in rest && !InFlight(Abs(), p)
    {
      hide PipeInv, Work, Good;
      rest, orphans := [], [];
      for k := 0 to |need|
        invariant |orphans| <= |rest| <= k
        invariant forall p :: p in rest <==> p in need[..k] && !Covering(p)
        invariant forall p :: p in orphans <==> p in rest && !InFlight(Abs(), p)
      {
        assert need[..k + 1] == need[..k] + [need[k]];
        var c := Covers(need[k]);
        if !c {
          rest := rest + [need[k]];
          var b := PageInSlot(need[k]);
          if !b { orphans := orphans + [need[k]]; }
        }
      }
      assert need[..|need|] == need;
    }

    method AnyActive() returns (b: bool)
      ensures b <==> exists s :: 0 <= s < |slot| && slot[s].active
    {
      for s := 0 to |slot|
        invariant forall t :: 0 <= t < s ==> !slot[t].active
      {
        if slot[s].active { return true; }
      }
      return false;
    }

    /** A pump, with what the waiting loop relies on. */
    method PumpStep()
      requires Good() && NoDup(Abs())
      modifies this`slot, this`jobs, this`owner, win, win.arena
      ensures Good() && NoDup(Abs()) && Work(Abs()) <= old(Work(Abs())) && |slot| == old(|slot|)
      ensures PipeInv(win.Cfg(), score, Abs())
      ensures score.WindowMode? && old(Work(Abs())) == 0 ==> forall s :: 0 <= s < |slot| ==> !slot[s].active
      ensures !score.WindowMode? ==> Kept(old(Abs()), Abs()) && Spare() == old(Spare())
      ensures score.WindowMode? ==> Brought(old(Abs()), Abs())
    {
      hide PipeInv, Work, NoDup, InFlight, Raised, IdleSlots, Flown, Brought;
      ghost var p := Abs();
      Pump();
      PumpedFor(p, Abs());
    }

    method YieldStep()
      requires Good() && NoDup(Abs())
      modifies this`slot, this`jobs, win.arena
      ensures Good() && NoDup(Abs()) && |slot| == old(|slot|)
      ensures Work(Abs()) <= old(Work(Abs())) && (old(jobs) != map[] ==> Work(Abs()) < old(Work(Abs())))
      ensures Kept(old(Abs()), Abs()) && Spare() == old(Spare()) && Brought(old(Abs()), Abs())
    {
      hide PipeInv, Work, Brought;
      ghost var p := Abs();
      Yield();
      BroughtRan(p, Abs());
      RanCounted(p, Abs());
      RanNoDup(p, Abs());
      RanKeepsRaised(p, Abs());
      assert forall s :: 0 <= s < |p.slots| ==> SlotRan(p.slots[s], slot[s]);
      SameIdle(p.slots, slot);
    }

    lemma FlightIsActive(page: nat)
      requires InFlight(Abs(), page)
      ensures exists s :: 0 <= s < |slot| && slot[s].active
    {
      var s: nat, i: nat :| Entry(Abs(), s, i) && slot[s].pages[i] == page;
      assert slot[s].active;
    }

    lemma GoodHasJob(p: Pipe, page: nat)
      requires PipeInv(win.Cfg(), score, p) && InFlight(p, page) && !Raised(p, page)
      ensures p.jobs != map[]
    {
      UnraisedHasJob(win.Cfg(), score, p, page);
    }

    ghost predicate AllInFlight(need: seq<nat>)
      reads this, win, win.arena
    {
      forall p :: p in need ==> InFlight(Abs(), p)
    }

    /** The idle slots have room for what is left to fetch: 1024 pages each. */
    ghost predicate RoomLeft(need: seq<nat>)
      reads this, win, win.arena
    {
      Left(need) <= MAX_PAGES * Spare()
    }

    /**
     `wait_covering`.  Away from the window it returns only when every needed
     page has its flag up at once: pages no slot has are issued again, and a
     page in flight always has a job, so "nothing in flight" cannot end the
     wait.  It asks for idle slots for the pages no slot has, at 1024 a slot:
     each new fill takes one, and nothing here gives one back.
     In window mode it issues nothing: with fills in place a needed page is
     resident at the end exactly when it was resident or on its way before.
     */
    method WaitCovering(need: seq<nat>) returns (toks: seq<nat>)
      requires Good() && NoDup(Abs()) && forall i :: 0 <= i < |need| ==> IsPage(win.Cfg(), need[i])
      requires !score.WindowMode? ==> RoomLeft(need)
      modifies this, win, win.arena
      ensures Good() && NoDup(Abs())
      ensures !score.WindowMode? ==> forall p :: p in need ==> Raised(Abs(), p)
      ensures !score.WindowMode? ==> |toks| == old(Spare()) - Spare()
      ensures score.WindowMode? ==> toks == []
      ensures score.WindowMode? && InPlace(old(Abs())) ==> forall p :: p in need ==> (p in win.pageMap <==> HereOrComing(old(Abs()), p))
    {
      hide PipeInv, Work, Good, Raised, InFlight, NoDup, IdleSlots, Missing, Brought, InPlace, HereOrComing;
      ghost var at := Abs();
      BroughtSelf(at);
      toks := [];
      var rest := need;
      while true
        invariant Good() && NoDup(Abs()) && |rest| <= |need|
        invariant forall i :: 0 <= i < |rest| ==> IsPage(win.Cfg(), rest[i])
        invariant score.WindowMode? ==> toks == []
        invariant !score.WindowMode? ==> RoomLeft(rest) && |toks| == old(Spare()) - Spare()
        invariant !score.WindowMode? ==> forall p :: p in need ==> p in rest || Raised(Abs(), p)
        invariant score.WindowMode? ==> Brought(at, Abs())
        invariant score.WindowMode? && InPlace(at) ==> forall p :: p in need ==> p in rest || p in win.pageMap
        decreases if score.WindowMode? then 0 else Left(rest), Work(Abs())
      {
        ghost var p0, rest0, left := Abs(), rest, Left(rest);
        PumpStep();
        ghost var p1 := Abs();
        if score.WindowMode? { StillHere(at, p0, p1); }
        var orphans;
        rest, orphans := Sift(rest);
        assert forall i :: 0 <= i < |rest| ==> rest[i] in rest && rest[i] in rest0;
        if !score.WindowMode? { LessLeft(p0, p1, rest0, rest); }
        if rest == [] { break; }
        if !score.WindowMode? && orphans != [] {
          var t := IssueOrphans(rest, orphans);
          if t != 0 { toks := toks + [t]; }
          continue;
        }
        // Away from the window the pages left are in flight, so some slot is active.
        if !score.WindowMode? {
          assert rest[0] in rest && rest[0] !in orphans;
          FlightIsActive(rest[0]);
        }
        var infl := AnyActive();
        if !infl { break; }
        YieldStep();
        if score.WindowMode? {
          StillHere(at, p1, Abs());
          NoJobsNoWork(p1);
        } else {
          LessLeft(p1, Abs(), rest, rest);
          assert rest[0] in rest && !Raised(p1, rest[0]);
          assert rest[0] !in orphans;
          GoodHasJob(p1, rest[0]);
        }
      }
      ghost var last := Abs();
      PumpStep();
      if score.WindowMode? {
        StillHere(at, last, Abs());
        if InPlace(at) { AllHere(at, last, Abs(), need, rest); }
      }
    }

    /** From `at` on, what was resident with fills in place stays. */
    static lemma StillHere(at: Pipe, p: Pipe, q: Pipe)
      requires Brought(at, p) && Brought(p, q)
      ensures Brought(at, q) && (InPlace(at) ==> forall page :: page in p.win.pageMap ==> page in q.win.pageMap)
    {
      BroughtTwice(at, p, q);
      hide InPlace, HereOrComing;
    }

    /** The wait ended: nothing needed was missing, or no slot was active. */
    static lemma AllHere(at: Pipe, p: Pipe, q: Pipe, need: seq<nat>, rest: seq<nat>)
      requires InPlace(at) && Brought(at, p) && Brought(p, q)
      requires forall x :: x in need ==> x in rest || x in p.win.pageMap
      requires rest == [] || forall s :: 0 <= s < |p.slots| ==> !p.slots[s].active
      ensures forall x :: x in need ==> (x in q.win.pageMap <==> HereOrComing(at, x))
    {
      hide InPlace, Coming;
      forall x | x in need ensures x in q.win.pageMap <==> HereOrComing(at, x) {
        assert HereOrComing(p, x) <==> HereOrComing(at, x);
        assert HereOrComing(q, x) <==> HereOrComing(p, x);
        if rest != [] { NoneComing(p, x); }
      }
    }

    /** The pages no slot has are issued again: less is left to fetch, and there is still room for it. */
    method IssueOrphans(rest: seq<nat>, orphans: seq<nat>) returns (t: nat)
      requires Good() && NoDup(Abs()) && !score.WindowMode? && RoomLeft(rest) && orphans != []
      requires forall i :: 0 <= i < |rest| ==> IsPage(win.Cfg(), rest[i])
      requires forall p :: p in orphans <==> p in rest && !InFlight(Abs(), p)
      modifies this, win, win.arena
      ensures Good() && NoDup(Abs()) && RoomLeft(rest) && Left(rest) < old(Left(rest))
      ensures Kept(old(Abs()), Abs()) && Spare() == old(Spare()) - (if t == 0 then 0 else 1)
    {
      hide PipeInv, Work, Good, Raised, InFlight, NoDup, IdleSlots, Missing;
      ghost var p := Abs();
      forall i | 0 <= i < |orphans| ensures IsPage(win.Cfg(), orphans[i]) { assert orphans[i] in orphans && orphans[i] in rest; }
      OrphansLeft(p, rest, orphans);
      SomeIdle(slot);
      t := Issue(orphans, 128, true);
      IssuedLeft(p, Abs(), rest, orphans);
    }

    /** Fewer needed pages and more flights leave no more to fetch. */
    static lemma LessLeft(p: Pipe, q: Pipe, need: seq<nat>, rest: seq<nat>)
      requires Kept(p, q) && forall x :: x in rest ==> x in need
      ensures |Missing(q, rest)| <= |Missing(p, need)|
    {
      hide InFlight, Raised;
      FewerCard(Missing(q, rest), Missing(p, need));
    }

    /** What is left to fetch are the orphans. */
    static lemma OrphansLeft(p: Pipe, rest: seq<nat>, orphans: seq<nat>)
      requires orphans != [] && forall x :: x in orphans <==> x in rest && !InFlight(p, x)
      ensures Missing(p, orphans) == Missing(p, rest) && |Missing(p, rest)| > 0
    {
      hide InFlight;
      assert orphans[0] in orphans && orphans[0] in Missing(p, rest);
    }

    static lemma IssuedLeft(p: Pipe, q: Pipe, rest: seq<nat>, orphans: seq<nat>)
      requires Kept(p, q) && forall x :: x in orphans <==> x in rest && !InFlight(p, x)
      ensures Missing(q, rest) == Missing(q, orphans)
    {
      hide InFlight, Raised;
    }

    /** Give back the fill with this token; nothing happens when scoring reads the window. */
    method ReleaseTok(tok: nat)
      requires Good() && NoDup(Abs())
      modifies this`slot
      ensures Abs() == ClearSome(old(Abs()), WithTok(old(Abs()), score, tok)) && NoDup(Abs())
      ensures Good() <==> AllComplete(old(Abs()), WithTok(old(Abs()), score, tok))
    {
      ghost var p := Abs();
      ReleaseKeeps(p, WithTok(p, score, tok));
      hide PipeInv, NoDup, Counted, AllComplete, WithTok, ClearSome;
      ClearTok(tok);
    }

    method ClearTok(tok: nat)
      modifies this`slot
      ensures Abs() == ClearSome(old(Abs()), WithTok(old(Abs()), score, tok))
    {
      ghost var p := Abs();
      ghost var sel := WithTok(p, score, tok);
      if score.WindowMode? || tok == 0 {
        assert ClearSome(p, sel).slots == p.slots;
        return;
      }
      for s := 0 to |slot|
        invariant |slot| == |p.slots| && forall t :: 0 <= t < |slot| ==> slot[t] == if t < s && sel[t] then Cleared(p.slots[t]) else p.slots[t]
      {
        if slot[s].active && slot[s].tok == tok { slot := slot[s := Cleared(slot[s])]; }
      }
      assert Abs() == ClearSome(p, sel);
    }

    /** `release_pages`: give back every fill that lists all the needed pages, whatever else it lists. */
    method ReleasePages(need: seq<nat>)
      requires Good() && NoDup(Abs())
      modifies this`slot
      ensures Abs() == ClearSome(old(Abs()), Owning(old(Abs()), score, need)) && NoDup(Abs())
      ensures Good() <==> AllComplete(old(Abs()), Owning(old(Abs()), score, need))
    {
      ghost var p := Abs();
      ReleaseKeeps(p, Owning(p, score, need));
      hide PipeInv, NoDup, Counted, AllComplete, Owning, ClearSome;
      ClearOwning(need);
    }

    method ClearOwning(need: seq<nat>)
      modifies this`slot
      ensures Abs() == ClearSome(old(Abs()), Owning(old(Abs()), score, need))
    {
      ghost var p := Abs();
      ghost var sel := Owning(p, score, need);
      if score.WindowMode? || need == [] {
        assert ClearSome(p, sel).slots == p.slots;
        return;
      }
      for s := 0 to |slot|
        invariant |slot| == |p.slots| && forall t :: 0 <= t < |slot| ==> slot[t] == if t < s && sel[t] then Cleared(p.slots[t]) else p.slots[t]
      {
        if !slot[s].active || slot[s].pages == [] { continue; }
        var owns := ListsAll(slot[s].pages, need);
        if owns { slot := slot[s := Cleared(slot[s])]; }
      }
      assert Abs() == ClearSome(p, sel);
    }

    lemma ReleaseKeeps(p: Pipe, sel: seq<bool>)
      requires Good() && p == Abs() && NoDup(p) && |sel| == |p.slots|
      requires forall s: nat :: s < |sel| && sel[s] ==> p.slots[s].active && !score.WindowMode?
      ensures var q := ClearSome(p, sel);
        && NoDup(q) && Counted(q)
        && (PipeInv(win.Cfg(), score, q) <==> AllComplete(p, sel))
    {
      ClearedNoDup(p, ClearSome(p, sel));
      if score.WindowMode? {
        assert ClearSome(p, sel).slots == p.slots;
      } else {
        ReleaseExact(win.Cfg(), score, p, sel);
      }
    }

    // ---------------------------------------------------------- reading a vector

    /** `bounce_page`: the staging copy of a page, whichever active slot lists it first. */
    method BouncePage(page: nat) returns (r: Option<Bytes>)
      requires Good() && NoDup(Abs()) && score.Bounce?
      ensures r.Some? <==> InFlight(Abs(), page)
      ensures Raised(Abs(), page) ==> r.Some? && IsPage(win.Cfg(), page) && r.value == PageAt(win.Cfg(), page)
      ensures r.Some? ==> |r.value| == win.pageBytes
    {
      hide PipeInv, Work;
      for s := 0 to |slot|
        invariant forall t: nat, i: nat :: t < s && Entry(Abs(), t, i) ==> slot[t].pages[i] != page
      {
        if slot[s].active {
          GoodSlot(s);
          for i := 0 to |slot[s].pages|
            invariant forall j: nat :: j < i && Entry(Abs(), s, j) ==> slot[s].pages[j] != page
          {
            if slot[s].pages[i] == page && i < |slot[s].host| {
              assert Entry(Abs(), s, i);
              if Raised(Abs(), page) { OnlyEntry(s, i); }
              return Some(slot[s].host[i]);
            }
          }
        }
      }
      return None;
    }

    lemma OnlyEntry(s: nat, i: nat)
      requires Good() && NoDup(Abs()) && score.Bounce? && Entry(Abs(), s, i) && Raised(Abs(), slot[s].pages[i])
      ensures i < |slot[s].host| && IsPage(win.Cfg(), slot[s].pages[i]) && slot[s].host[i] == PageAt(win.Cfg(), slot[s].pages[i])
    {
      hide PipeInv, Work;
      GoodSlot(s);
      var t: nat, j: nat :| EntryReady(Abs(), t, j) && slot[t].pages[j] == slot[s].pages[i];
      assert Entry(Abs(), t, j);
    }

    /** One `memcpy` of the bounce copy. */
    method BouncePart(cur: nat, want: nat) returns (r: Option<Bytes>)
      requires Good() && NoDup(Abs()) && score.Bounce? && want > 0
      ensures r.Some? ==> 1 <= |r.value| <= want
      ensures win.pageBytes > 0
      ensures Raised(Abs(), PageDown(cur, win.pageBytes)) && cur + want <= |win.ssd| ==>
                r.Some? && r.value == win.ssd[cur..cur + |r.value|]
    {
      hide PipeInv, Work, Raised, InFlight;
      var pb := win.pageBytes;
      var page := PageDown(cur, pb);
      PageDownOf(cur, pb);
      var base := BouncePage(page);
      if base.None? { return None; }
      var k := if want < pb - (cur - page) then want else pb - (cur - page);
      if Raised(Abs(), page) && cur + want <= |win.ssd| {
        SliceOfSlice(win.ssd, page, page + pb, cur - page, cur - page + k);
      }
      return Some(base.value[cur - page..cur - page + k]);
    }

    /** `copy_vec` out of staging memory: right whenever every page it touches has its flag up. */
    method CopyBounce(off: nat, n: nat) returns (r: Option<Bytes>)
      requires Good() && NoDup(Abs()) && score.Bounce? && n > 0 && win.pageBytes > 0 && off + n <= |win.ssd|
      ensures SpanRaised(off, n) ==> r.Some? && r.value == win.ssd[off..off + n]
      ensures r.Some? ==> |r.value| == n
    {
      hide PipeInv, Work, Good, Raised, InFlight, NoDup;
      ghost var right := SpanRaised(off, n);
      var out: Bytes := [];
      while |out| < n
        invariant |out| <= n
        invariant right ==> out == win.ssd[off..off + |out|]
      {
        if right { SpanByte(off, n, off + |out|); }
        var part := BouncePart(off + |out|, n - |out|);
        if part.None? { return None; }
        out := out + part.value;
      }
      return Some(out);
    }

    lemma SpanByte(off: nat, n: nat, cur: nat)
      requires win.pageBytes > 0 && SpanRaised(off, n) && off <= cur < off + n
      ensures Raised(Abs(), PageDown(cur, win.pageBytes))
    {
      PageDownOf(cur, win.pageBytes);
      DivBetween(off, cur, off + n - 1, win.pageBytes);
    }

    ghost predicate SpanRaised(off: nat, n: nat)
      requires win.pageBytes > 0
      reads this, win, win.arena
    {
      n > 0 ==> forall k: nat :: off / win.pageBytes <= k <= (off + n - 1) / win.pageBytes ==> Raised(Abs(), PageOff(k, win.pageBytes))
    }
  }

  lemma SameWork(p: Pipe, q: Pipe)
    requires q.jobs == p.jobs && q.nextJob == p.nextJob
    ensures Work(q) == Work(p)
  {}

  lemma {:induction false} EmptyWork(n: nat)
    ensures WorkBelow(map[], n) == 0
  {
    if n > 0 { EmptyWork(n - 1); }
  }

  /** Delivering bytes is something only workers do. */
  lemma {:induction false} DeliverAllRan(c: Config, m: Mode, p: Pipe, j: Job, n: nat)
    requires j.slot < |p.slots| && j.off + n <= |p.slots[j.slot].pages|
    requires forall i :: 0 <= i < |p.slots[j.slot].pages| ==> p.slots[j.slot].pages[i] + c.pageBytes <= |c.ssd|
    ensures var q := DeliverAll(c, m, p, j, n);
      && q.nextJob == p.nextJob && q.nextTok == p.nextTok && q.owner == p.owner && q.jobs == p.jobs
      && q.win == p.win.(frames := q.win.frames)
      && |q.slots| == |p.slots| && (forall s :: 0 <= s < |p.slots| ==> SlotRan(p.slots[s], q.slots[s]))
  {
    if n > 0 {
      DeliverAllRan(c, m, p, j, n - 1);
      var q := DeliverAll(c, m, p, j, n - 1);
      var i := j.off + n - 1;
      assert DeliverAll(c, m, p, j, n) == Deliver(m, q, j.slot, i, PageAt(c, p.slots[j.slot].pages[i]));
      hide DeliverAll, Deliver, PageAt;
      DeliverRan(m, q, j.slot, i, PageAt(c, p.slots[j.slot].pages[i]));
      forall s | 0 <= s < |p.slots| ensures SlotRan(p.slots[s], Deliver(m, q, j.slot, i, PageAt(c, p.slots[j.slot].pages[i])).slots[s]) {
        assert SlotRan(p.slots[s], q.slots[s]);
      }
    }
  }

  lemma DeliverRan(m: Mode, p: Pipe, s: nat, i: nat, bytes: Bytes)
    requires s < |p.slots|
    ensures var q := Deliver(m, p, s, i, bytes);
      && q.nextJob == p.nextJob && q.nextTok == p.nextTok && q.owner == p.owner && q.jobs == p.jobs
      && q.win == p.win.(frames := q.win.frames)
      && |q.slots| == |p.slots| && (forall t :: 0 <= t < |p.slots| ==> SlotRan(p.slots[t], q.slots[t]))
  {}

  lemma EmptyRead(c: Config, m: Mode, p: Pipe, j: Job)
    requires j.slot < |p.slots| && j.off <= |p.slots[j.slot].pages|
    requires forall i :: 0 <= i < |p.slots[j.slot].pages| ==> p.slots[j.slot].pages[i] + c.pageBytes <= |c.ssd|
    ensures DeliverAll(c, m, p, j, 0) == p
  {}

  /** One more page of a job's read. */
  lemma ReadStep(c: Config, m: Mode, p: Pipe, j: Job, x: nat)
    requires j.slot < |p.slots| && j.off + x < |p.slots[j.slot].pages|
    requires forall i :: 0 <= i < |p.slots[j.slot].pages| ==> p.slots[j.slot].pages[i] + c.pageBytes <= |c.ssd|
    ensures var q := DeliverAll(c, m, p, j, x);
      && |q.slots| == |p.slots| && q.jobs == p.jobs && q.slots[j.slot].pages == p.slots[j.slot].pages
      && var page := p.slots[j.slot].pages[j.off + x];
      page + c.pageBytes <= |c.ssd| && DeliverAll(c, m, p, j, x + 1) == Deliver(m, q, j.slot, j.off + x, c.ssd[page..page + c.pageBytes])
  {
    DeliverAllRan(c, m, p, j, x);
  }
}
