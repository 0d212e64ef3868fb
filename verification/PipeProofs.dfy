/** The fill protocol's invariant, kept by every worker action and every owner action. */
module PipeProofs {
  import opened Common
  import opened Counting
  import opened PageMath
  import opened WindowSpec
  import opened WindowProofs
  import opened PipeSpec

  // ------------------------------------------------------------ the invariant

  ghost predicate SlotOk(c: Config, m: Mode, sl: Slot) {
    sl.active ==>
      && 0 < |sl.pages| <= MAX_PAGES
      && |sl.ready| == |sl.consumed| == |sl.pages|
      && sl.readyN <= Count(sl.consumed)
      && (forall i :: 0 <= i < |sl.pages| ==> IsPage(c, sl.pages[i]))
      && (forall i :: 0 <= i < |sl.pages| && sl.consumed[i] ==> sl.ready[i])
      && (if sl.direct then m.WindowMode? && |sl.frames| == |sl.pages|
          else if m.Vmem? then sl.host == []
          else && |sl.host| == |sl.pages|
               && (forall i :: 0 <= i < |sl.pages| ==> |sl.host[i]| == c.pageBytes)
               && (forall i :: 0 <= i < |sl.pages| && sl.ready[i] ==> sl.host[i] == PageAt(c, sl.pages[i])))
  }

  ghost predicate SlotsOk(c: Config, m: Mode, p: Pipe) {
    |p.slots| == SLOTS && forall s :: 0 <= s < |p.slots| ==> SlotOk(c, m, p.slots[s])
  }

  /** Entry `(s, i)` is filling frame `f`. */
  ghost predicate Fills(c: Config, p: Pipe, s: nat, i: nat, f: nat) {
    && Entry(p, s, i) && p.slots[s].direct
    && |p.slots[s].frames| == |p.slots[s].consumed| == |p.slots[s].ready| == |p.slots[s].pages|
    && !p.slots[s].consumed[i] && p.slots[s].frames[i] == f
    && f < |p.win.key| == |p.win.frames|
    && p.win.key[f] == Some(p.slots[s].pages[i])
    && IsPage(c, p.slots[s].pages[i])
    && (p.slots[s].ready[i] ==> p.win.frames[f] == PageAt(c, p.slots[s].pages[i]))
  }

  /** The filling frames are exactly those reserved for entries not yet committed, one frame an entry. */
  ghost predicate OwnersOk(c: Config, p: Pipe)
    requires Shape(c, p.win)
  {
    && (forall s: nat, i: nat :: Entry(p, s, i) && p.slots[s].direct && i < |p.slots[s].consumed| && i < |p.slots[s].frames| && !p.slots[s].consumed[i] ==>
          p.slots[s].frames[i] in p.owner && p.owner[p.slots[s].frames[i]] == (s, i))
    && (forall f :: f in p.owner ==> f < c.nFrames && p.win.filling[f] && Fills(c, p, p.owner[f].0, p.owner[f].1, f))
    && (forall f :: 0 <= f < c.nFrames && p.win.filling[f] ==> f in p.owner)
  }

  /** The destination of entry `(s, i)` holds its page. */
  ghost predicate Delivered(c: Config, m: Mode, p: Pipe, s: nat, i: nat) {
    && Entry(p, s, i) && IsPage(c, p.slots[s].pages[i])
    && var sl := p.slots[s];
       if sl.direct then i < |sl.frames| && sl.frames[i] < |p.win.frames| && p.win.frames[sl.frames[i]] == PageAt(c, sl.pages[i])
       else m.Vmem? || (i < |sl.host| && sl.host[i] == PageAt(c, sl.pages[i]))
  }

  /** A job works on a run of an active slot, on pages whose flags it has yet to set. */
  ghost predicate JobOk(c: Config, m: Mode, p: Pipe, j: Job) {
    && j.slot < |p.slots| && p.slots[j.slot].active
    && 0 < j.n && j.off + j.n <= |p.slots[j.slot].pages| == |p.slots[j.slot].ready|
    && Flagged(j) < j.n
    && (forall x :: j.off + Flagged(j) <= x < j.off + j.n ==> !p.slots[j.slot].ready[x])
    && (j.phase.Flagging? ==> forall x :: j.off + Flagged(j) <= x < j.off + j.n ==> Delivered(c, m, p, j.slot, x))
  }

  ghost predicate Apart(j: Job, k: Job) {
    j.slot != k.slot || j.off + j.n <= k.off || k.off + k.n <= j.off
  }

  ghost predicate JobsOk(c: Config, m: Mode, p: Pipe) {
    && (forall id :: id in p.jobs ==> id < p.nextJob && JobOk(c, m, p, p.jobs[id]))
    && (forall id, jd :: id in p.jobs && jd in p.jobs && id != jd ==> Apart(p.jobs[id], p.jobs[jd]))
  }

  ghost predicate Covers(j: Job, s: nat, i: nat) {
    j.slot == s && j.off + Flagged(j) <= i < j.off + j.n
  }

  ghost predicate CoveredBy(jobs: map<nat, Job>, s: nat, i: nat) {
    exists id :: id in jobs && Covers(jobs[id], s, i)
  }

  ghost predicate Covered(p: Pipe, s: nat, i: nat) {
    CoveredBy(p.jobs, s, i)
  }

  /** Every page not yet ready has a job that will make it so. */
  ghost predicate Progress(p: Pipe) {
    forall s: nat, i: nat :: Entry(p, s, i) && i < |p.slots[s].ready| && !p.slots[s].ready[i] ==> Covered(p, s, i)
  }

  ghost predicate PipeInv(c: Config, m: Mode, p: Pipe) {
    && Valid(c, p.win)
    && SlotsOk(c, m, p) && OwnersOk(c, p) && JobsOk(c, m, p) && Progress(p)
  }

  // ------------------------------------------------------------ worker actions

  /** Slots agree in everything but staged bytes. */
  ghost predicate SameFlags(p: Pipe, q: Pipe) {
    && |p.slots| == |q.slots|
    && forall s :: 0 <= s < |p.slots| ==>
         var a, b := p.slots[s], q.slots[s];
         a.active == b.active && a.pages == b.pages && a.ready == b.ready && a.consumed == b.consumed
         && a.frames == b.frames && a.direct == b.direct
  }

  lemma SameProgress(p: Pipe, q: Pipe)
    requires SameFlags(p, q) && q.jobs == p.jobs && Progress(p)
    ensures Progress(q)
  {
    forall s: nat, x: nat | Entry(q, s, x) && x < |q.slots[s].ready| && !q.slots[s].ready[x] ensures Covered(q, s, x) {
      assert Entry(p, s, x);
      assert Covered(p, s, x);
      var id :| id in p.jobs && Covers(p.jobs[id], s, x);
      assert Covers(q.jobs[id], s, x);
    }
  }

  ghost predicate EntryReady(p: Pipe, s: nat, i: nat) {
    Entry(p, s, i) && i < |p.slots[s].ready| && p.slots[s].ready[i]
  }

  lemma SameOwners(c: Config, p: Pipe, q: Pipe)
    requires Shape(c, p.win) && Shape(c, q.win) && SameFlags(p, q) && q.owner == p.owner && OwnersOk(c, p)
    requires q.win.key == p.win.key && q.win.filling == p.win.filling
    requires forall f :: f in p.owner && f < c.nFrames && EntryReady(p, p.owner[f].0, p.owner[f].1) ==> q.win.frames[f] == p.win.frames[f]
    ensures OwnersOk(c, q)
  {
    forall g | g in q.owner ensures g < c.nFrames && q.win.filling[g] && Fills(c, q, q.owner[g].0, q.owner[g].1, g) {
      assert Fills(c, p, p.owner[g].0, p.owner[g].1, g);
      assert Entry(p, p.owner[g].0, p.owner[g].1);
    }
    forall s: nat, x: nat | Entry(q, s, x) && q.slots[s].direct && x < |q.slots[s].consumed| && x < |q.slots[s].frames| && !q.slots[s].consumed[x]
      ensures q.slots[s].frames[x] in q.owner && q.owner[q.slots[s].frames[x]] == (s, x) {
      assert Entry(p, s, x);
    }
  }

  /** Writing a destination that no flag vouches for yet disturbs nothing. */
  lemma DeliverKeeps(c: Config, m: Mode, p: Pipe, id: nat, i: nat, bytes: Bytes)
    requires PipeInv(c, m, p) && id in p.jobs && p.jobs[id].phase.Writing? && |bytes| == c.pageBytes
    requires p.jobs[id].off <= i < p.jobs[id].off + p.jobs[id].n
    ensures PipeInv(c, m, Deliver(m, p, p.jobs[id].slot, i, bytes))
    ensures Deliver(m, p, p.jobs[id].slot, i, bytes).jobs == p.jobs
  {
    hide Valid, JobOk, Delivered, Fills;
    JobFacts(c, m, p, id, i);
    var j := p.jobs[id];
    var q := Deliver(m, p, j.slot, i, bytes);
    DeliverJobs(c, m, p, id, i, bytes);
    DeliverSlots(c, m, p, id, i, bytes);
    SameProgress(p, q);
    if p.slots[j.slot].direct {
      DeliverFrame(c, m, p, id, i, bytes);
    } else {
      DeliverHost(c, m, p, id, i, bytes);
    }
  }

  lemma JobFacts(c: Config, m: Mode, p: Pipe, id: nat, i: nat)
    requires PipeInv(c, m, p) && id in p.jobs
    requires p.jobs[id].off + Flagged(p.jobs[id]) <= i < p.jobs[id].off + p.jobs[id].n
    ensures var s := p.jobs[id].slot;
      && Entry(p, s, i) && |p.slots[s].ready| == |p.slots[s].consumed| == |p.slots[s].pages|
      && !p.slots[s].ready[i] && !p.slots[s].consumed[i] && SlotOk(c, m, p.slots[s])
  {
    hide Valid, Delivered, Fills;
    assert JobOk(c, m, p, p.jobs[id]);
    assert SlotOk(c, m, p.slots[p.jobs[id].slot]);
  }

  lemma DeliverSlots(c: Config, m: Mode, p: Pipe, id: nat, i: nat, bytes: Bytes)
    requires PipeInv(c, m, p) && id in p.jobs && p.jobs[id].phase.Writing? && |bytes| == c.pageBytes
    requires p.jobs[id].off <= i < p.jobs[id].off + p.jobs[id].n
    ensures var q := Deliver(m, p, p.jobs[id].slot, i, bytes);
      SlotsOk(c, m, q) && SameFlags(p, q) && q.jobs == p.jobs && q.nextJob == p.nextJob
  {
    hide Valid, OwnersOk, JobsOk, Progress;
    JobFacts(c, m, p, id, i);
  }

  lemma DeliverHost(c: Config, m: Mode, p: Pipe, id: nat, i: nat, bytes: Bytes)
    requires PipeInv(c, m, p) && id in p.jobs && p.jobs[id].phase.Writing? && |bytes| == c.pageBytes
    requires p.jobs[id].off <= i < p.jobs[id].off + p.jobs[id].n && !p.slots[p.jobs[id].slot].direct
    ensures var q := Deliver(m, p, p.jobs[id].slot, i, bytes); Valid(c, q.win) && OwnersOk(c, q)
  {
    hide Valid, Delivered, OwnersOk, SlotsOk, Progress, SameFlags;
    assert JobOk(c, m, p, p.jobs[id]);
    DeliverSlots(c, m, p, id, i, bytes);
    ValidShape(c, p.win);
    hide JobsOk, JobOk;
    SameOwners(c, p, Deliver(m, p, p.jobs[id].slot, i, bytes));
  }

  lemma DeliverFrame(c: Config, m: Mode, p: Pipe, id: nat, i: nat, bytes: Bytes)
    requires PipeInv(c, m, p) && id in p.jobs && p.jobs[id].phase.Writing?
    requires p.jobs[id].off <= i < p.jobs[id].off + p.jobs[id].n && p.slots[p.jobs[id].slot].direct
    ensures var q := Deliver(m, p, p.jobs[id].slot, i, bytes); Valid(c, q.win) && OwnersOk(c, q)
  {
    var j := p.jobs[id];
    var q := Deliver(m, p, j.slot, i, bytes);
    assert JobOk(c, m, p, j) && SlotOk(c, m, p.slots[j.slot]) && !p.slots[j.slot].ready[i];
    assert Entry(p, j.slot, i);
    var f := p.slots[j.slot].frames[i];
    assert p.owner[f] == (j.slot, i);
    FrameWriteValid(c, p.win, f, bytes);
    SameOwners(c, p, q);
  }

  /** Bytes in a frame being filled are nobody's concern yet. */
  lemma FrameWriteValid(c: Config, w: Win, f: nat, bytes: Bytes)
    requires Valid(c, w) && f < c.nFrames && w.filling[f]
    ensures Valid(c, w.(frames := w.frames[f := bytes]))
  {}

  lemma DeliverJobs(c: Config, m: Mode, p: Pipe, id: nat, i: nat, bytes: Bytes)
    requires PipeInv(c, m, p) && id in p.jobs && p.jobs[id].phase.Writing? && |bytes| == c.pageBytes
    requires p.jobs[id].off <= i < p.jobs[id].off + p.jobs[id].n
    ensures JobsOk(c, m, Deliver(m, p, p.jobs[id].slot, i, bytes))
  {
    hide Valid, JobOk, Delivered, Fills, SlotOk;
    JobFacts(c, m, p, id, i);
    var q := Deliver(m, p, p.jobs[id].slot, i, bytes);
    DeliverSlots(c, m, p, id, i, bytes);
    forall kd | kd in q.jobs ensures JobOk(c, m, q, q.jobs[kd]) {
      DeliverJob(c, m, p, id, i, bytes, kd);
    }
  }

  lemma DeliverJob(c: Config, m: Mode, p: Pipe, id: nat, i: nat, bytes: Bytes, kd: nat)
    requires PipeInv(c, m, p) && id in p.jobs && p.jobs[id].phase.Writing? && |bytes| == c.pageBytes
    requires p.jobs[id].off <= i < p.jobs[id].off + p.jobs[id].n && kd in p.jobs
    ensures JobOk(c, m, Deliver(m, p, p.jobs[id].slot, i, bytes), p.jobs[kd])
  {
    hide Valid, Delivered, Fills, SlotOk;
    var j, k := p.jobs[id], p.jobs[kd];
    var q := Deliver(m, p, j.slot, i, bytes);
    assert JobOk(c, m, p, j) && JobOk(c, m, p, k);
    DeliverSlots(c, m, p, id, i, bytes);
    if k.phase.Flagging? {
      forall x | k.off + Flagged(k) <= x < k.off + k.n ensures Delivered(c, m, q, k.slot, x) {
        assert Apart(j, k) && Delivered(c, m, p, k.slot, x);
        ValidShape(c, p.win);
        OtherDelivered(c, m, p, j.slot, i, k.slot, x, bytes);
      }
    }
  }

  lemma ValidShape(c: Config, w: Win)
    requires Valid(c, w)
    ensures Shape(c, w)
  {}

  /** Two entries with unset flags never share a destination. */
  lemma OtherDelivered(c: Config, m: Mode, p: Pipe, s: nat, i: nat, t: nat, x: nat, bytes: Bytes)
    requires Shape(c, p.win) && SlotsOk(c, m, p) && OwnersOk(c, p)
    requires Entry(p, s, i) && Entry(p, t, x) && (s, i) != (t, x) && !p.slots[s].ready[i] && !p.slots[t].ready[x]
    requires Delivered(c, m, p, t, x)
    ensures Delivered(c, m, Deliver(m, p, s, i, bytes), t, x)
  {
    assert SlotOk(c, m, p.slots[s]) && SlotOk(c, m, p.slots[t]);
    if p.slots[s].direct && p.slots[t].direct {
      assert p.owner[p.slots[s].frames[i]] == (s, i);
      assert p.owner[p.slots[t].frames[x]] == (t, x);
    }
  }

  /** The job's slot lists pages of the image. */
  lemma JobPages(c: Config, m: Mode, p: Pipe, id: nat)
    requires PipeInv(c, m, p) && id in p.jobs
    ensures var j := p.jobs[id];
      && j.slot < |p.slots| && j.off + j.n <= |p.slots[j.slot].pages| && 0 < j.n
      && forall i :: 0 <= i < |p.slots[j.slot].pages| ==> IsPage(c, p.slots[j.slot].pages[i])
  {
    hide Valid, OwnersOk, Progress, Delivered;
    JobFacts(c, m, p, id, p.jobs[id].off + Flagged(p.jobs[id]));
    assert JobOk(c, m, p, p.jobs[id]);
  }

  lemma {:induction false} DeliverAllKeeps(c: Config, m: Mode, p: Pipe, id: nat, n: nat)
    requires PipeInv(c, m, p) && id in p.jobs && p.jobs[id].phase.Writing? && n <= p.jobs[id].n
    requires p.jobs[id].slot < |p.slots| && p.jobs[id].off + p.jobs[id].n <= |p.slots[p.jobs[id].slot].pages|
    requires forall i :: 0 <= i < |p.slots[p.jobs[id].slot].pages| ==> IsPage(c, p.slots[p.jobs[id].slot].pages[i])
    ensures var q := DeliverAll(c, m, p, p.jobs[id], n);
      && PipeInv(c, m, q) && q.jobs == p.jobs && q.nextJob == p.nextJob && SameFlags(p, q)
      && forall x :: p.jobs[id].off <= x < p.jobs[id].off + n ==> Delivered(c, m, q, p.jobs[id].slot, x)
  {
    hide *;
    var j := p.jobs[id];
    if n == 0 {
      DeliverNone(c, m, p, j);
    } else {
      DeliverAllKeeps(c, m, p, id, n - 1);
      DeliverNext(c, m, p, j, n);
      var q := DeliverAll(c, m, p, j, n - 1);
      SlotSame(p, q, j.slot);
      DeliverOneMore(c, m, q, id, n - 1, PageAt(c, p.slots[j.slot].pages[j.off + n - 1]));
      SameFlagsThen(p, q, DeliverAll(c, m, p, j, n));
    }
  }

  lemma DeliverNone(c: Config, m: Mode, p: Pipe, j: Job)
    requires j.slot < |p.slots| && j.off <= |p.slots[j.slot].pages|
    requires forall i :: 0 <= i < |p.slots[j.slot].pages| ==> IsPage(c, p.slots[j.slot].pages[i])
    ensures forall i :: 0 <= i < |p.slots[j.slot].pages| ==> p.slots[j.slot].pages[i] + c.pageBytes <= |c.ssd|
    ensures DeliverAll(c, m, p, j, 0) == p && SameFlags(p, p)
  {}

  lemma DeliverNext(c: Config, m: Mode, p: Pipe, j: Job, n: nat)
    requires n > 0 && j.slot < |p.slots| && j.off + n <= |p.slots[j.slot].pages|
    requires forall i :: 0 <= i < |p.slots[j.slot].pages| ==> IsPage(c, p.slots[j.slot].pages[i])
    ensures forall i :: 0 <= i < |p.slots[j.slot].pages| ==> p.slots[j.slot].pages[i] + c.pageBytes <= |c.ssd|
    ensures DeliverAll(c, m, p, j, n) ==
            Deliver(m, DeliverAll(c, m, p, j, n - 1), j.slot, j.off + n - 1, PageAt(c, p.slots[j.slot].pages[j.off + n - 1]))
  {
    hide Deliver;
  }

  lemma SlotSame(p: Pipe, q: Pipe, s: nat)
    requires SameFlags(p, q) && s < |p.slots|
    ensures |q.slots| == |p.slots| && q.slots[s].pages == p.slots[s].pages
  {}

  lemma SameFlagsThen(p: Pipe, q: Pipe, r: Pipe)
    requires SameFlags(p, q) && SameFlags(q, r)
    ensures SameFlags(p, r)
  {}

  lemma DeliverOneMore(c: Config, m: Mode, p: Pipe, id: nat, n: nat, bytes: Bytes)
    requires PipeInv(c, m, p) && id in p.jobs && p.jobs[id].phase.Writing? && n < p.jobs[id].n
    requires forall x :: p.jobs[id].off <= x < p.jobs[id].off + n ==> Delivered(c, m, p, p.jobs[id].slot, x)
    requires p.jobs[id].slot < |p.slots| && p.jobs[id].off + n < |p.slots[p.jobs[id].slot].pages|
    requires var page := p.slots[p.jobs[id].slot].pages[p.jobs[id].off + n]; IsPage(c, page) && bytes == PageAt(c, page)
    ensures var q := Deliver(m, p, p.jobs[id].slot, p.jobs[id].off + n, bytes);
      && PipeInv(c, m, q) && q.jobs == p.jobs && q.nextJob == p.nextJob && SameFlags(p, q)
      && forall x :: p.jobs[id].off <= x < p.jobs[id].off + n + 1 ==> Delivered(c, m, q, p.jobs[id].slot, x)
  {
    hide Valid, JobOk, Progress, Fills, SlotsOk, OwnersOk, JobsOk, Delivered;
    var j := p.jobs[id];
    JobFacts(c, m, p, id, j.off + n);
    DeliverKeeps(c, m, p, id, j.off + n, bytes);
    DeliverSlots(c, m, p, id, j.off + n, bytes);
    var q := Deliver(m, p, j.slot, j.off + n, bytes);
    forall x | j.off <= x < j.off + n + 1 ensures Delivered(c, m, q, j.slot, x) {
      if x < j.off + n { StillDelivered(c, m, p, id, j.off + n, x, bytes); } else { JustDelivered(c, m, p, id, x, bytes); }
    }
  }

  lemma StillDelivered(c: Config, m: Mode, p: Pipe, id: nat, i: nat, x: nat, bytes: Bytes)
    requires PipeInv(c, m, p) && id in p.jobs && p.jobs[id].phase.Writing? && i != x
    requires p.jobs[id].off <= i < p.jobs[id].off + p.jobs[id].n && p.jobs[id].off <= x < p.jobs[id].off + p.jobs[id].n
    requires Delivered(c, m, p, p.jobs[id].slot, x) && p.jobs[id].slot < |p.slots|
    ensures Delivered(c, m, Deliver(m, p, p.jobs[id].slot, i, bytes), p.jobs[id].slot, x)
  {
    hide Valid, JobOk, Progress, Delivered;
    JobFacts(c, m, p, id, x);
    JobFacts(c, m, p, id, i);
    ValidShape(c, p.win);
    OtherDelivered(c, m, p, p.jobs[id].slot, i, p.jobs[id].slot, x, bytes);
  }

  lemma JustDelivered(c: Config, m: Mode, p: Pipe, id: nat, x: nat, bytes: Bytes)
    requires PipeInv(c, m, p) && id in p.jobs && p.jobs[id].off + Flagged(p.jobs[id]) <= x < p.jobs[id].off + p.jobs[id].n
    requires Entry(p, p.jobs[id].slot, x)
    requires var page := p.slots[p.jobs[id].slot].pages[x]; IsPage(c, page) && bytes == PageAt(c, page)
    ensures Delivered(c, m, Deliver(m, p, p.jobs[id].slot, x, bytes), p.jobs[id].slot, x)
  {
    hide Valid, JobOk, JobsOk, SlotsOk, Progress;
    JobFacts(c, m, p, id, x);
    ValidShape(c, p.win);
    var sl := p.slots[p.jobs[id].slot];
    if sl.direct {
      assert p.owner[sl.frames[x]] == (p.jobs[id].slot, x);
    }
  }

  /** Ending the device read of a job keeps the invariant: from now on its destinations hold their pages. */
  lemma EndReadKeeps(c: Config, m: Mode, p: Pipe, id: nat)
    requires PipeInv(c, m, p) && id in p.jobs && p.jobs[id].phase.Writing?
    requires p.jobs[id].slot < |p.slots| && p.jobs[id].off + p.jobs[id].n <= |p.slots[p.jobs[id].slot].pages|
    requires forall i :: 0 <= i < |p.slots[p.jobs[id].slot].pages| ==> IsPage(c, p.slots[p.jobs[id].slot].pages[i])
    ensures PipeInv(c, m, EndRead(c, m, p, id)) && SameFlags(p, EndRead(c, m, p, id))
  {
    hide *;
    var j := p.jobs[id];
    DeliverNone(c, m, p, j);
    DeliverAllKeeps(c, m, p, id, j.n);
    EndReadIs(c, m, p, id);
    StartFlagging(c, m, DeliverAll(c, m, p, j, j.n), id);
    SameFlagsThen(p, DeliverAll(c, m, p, j, j.n), EndRead(c, m, p, id));
  }

  lemma EndReadIs(c: Config, m: Mode, p: Pipe, id: nat)
    requires id in p.jobs && p.jobs[id].slot < |p.slots|
    requires var j := p.jobs[id]; j.off + j.n <= |p.slots[j.slot].pages|
    requires forall i :: 0 <= i < |p.slots[p.jobs[id].slot].pages| ==> p.slots[p.jobs[id].slot].pages[i] + c.pageBytes <= |c.ssd|
    requires DeliverAll(c, m, p, p.jobs[id], p.jobs[id].n).jobs == p.jobs
    ensures var q := DeliverAll(c, m, p, p.jobs[id], p.jobs[id].n);
      EndRead(c, m, p, id) == q.(jobs := q.jobs[id := q.jobs[id].(phase := Flagging(0))]) && SameFlags(q, EndRead(c, m, p, id))
  {
    hide DeliverAll;
  }

  lemma StartFlagging(c: Config, m: Mode, p: Pipe, id: nat)
    requires PipeInv(c, m, p) && id in p.jobs && p.jobs[id].phase.Writing?
    requires forall x :: p.jobs[id].off <= x < p.jobs[id].off + p.jobs[id].n ==> Delivered(c, m, p, p.jobs[id].slot, x)
    ensures PipeInv(c, m, p.(jobs := p.jobs[id := p.jobs[id].(phase := Flagging(0))]))
  {
    hide Valid, Delivered, JobOk, Fills;
    var q := p.(jobs := p.jobs[id := p.jobs[id].(phase := Flagging(0))]);
    StartFlaggingJobs(c, m, p, id);
    StartFlaggingOwners(c, m, p, q);
    forall s: nat, x: nat | Entry(q, s, x) && x < |q.slots[s].ready| && !q.slots[s].ready[x] ensures Covered(q, s, x) {
      assert Entry(p, s, x);
      var kd :| kd in p.jobs && Covers(p.jobs[kd], s, x);
      assert Covers(q.jobs[kd], s, x);
    }
  }

  lemma StartFlaggingOwners(c: Config, m: Mode, p: Pipe, q: Pipe)
    requires PipeInv(c, m, p) && q == p.(jobs := q.jobs)
    ensures Shape(c, q.win) && OwnersOk(c, q)
  {
    hide MapInv, FlagInv, PinInv, SoftInv, BytesInv, JobsOk, Progress;
    SameOwners(c, p, q);
  }

  lemma StartFlaggingJobs(c: Config, m: Mode, p: Pipe, id: nat)
    requires PipeInv(c, m, p) && id in p.jobs && p.jobs[id].phase.Writing?
    requires forall x :: p.jobs[id].off <= x < p.jobs[id].off + p.jobs[id].n ==> Delivered(c, m, p, p.jobs[id].slot, x)
    ensures JobsOk(c, m, p.(jobs := p.jobs[id := p.jobs[id].(phase := Flagging(0))]))
  {
    hide JobOk, Delivered, Valid, SlotsOk, OwnersOk;
    var q := p.(jobs := p.jobs[id := p.jobs[id].(phase := Flagging(0))]);
    InvJobs(c, m, p);
    forall kd | kd in q.jobs ensures JobOk(c, m, q, q.jobs[kd]) {
      StartFlaggingJob(c, m, p, q, id, kd);
    }
    forall a, b | a in q.jobs && b in q.jobs && a != b ensures Apart(q.jobs[a], q.jobs[b]) {
      assert Apart(p.jobs[a], p.jobs[b]);
    }
  }

  lemma InvJobs(c: Config, m: Mode, p: Pipe)
    requires PipeInv(c, m, p)
    ensures JobsOk(c, m, p)
  {}

  lemma StartFlaggingJob(c: Config, m: Mode, p: Pipe, q: Pipe, id: nat, kd: nat)
    requires kd in p.jobs && JobOk(c, m, p, p.jobs[kd]) && id in p.jobs && p.jobs[id].phase.Writing?
    requires q == p.(jobs := p.jobs[id := p.jobs[id].(phase := Flagging(0))])
    requires forall x :: p.jobs[id].off <= x < p.jobs[id].off + p.jobs[id].n ==> Delivered(c, m, p, p.jobs[id].slot, x)
    ensures JobOk(c, m, q, q.jobs[kd])
  {
    hide Delivered;
    SameEntries(c, m, p, q, q.jobs[kd].slot);
  }

  lemma SameEntries(c: Config, m: Mode, p: Pipe, q: Pipe, s: nat)
    requires q.slots == p.slots && q.win == p.win
    ensures forall x: nat :: Delivered(c, m, p, s, x) ==> Delivered(c, m, q, s, x)
  {
    forall x: nat | Delivered(c, m, p, s, x) ensures Delivered(c, m, q, s, x) {
      assert Entry(p, s, x) && Entry(q, s, x);
    }
  }

  // ------------------------------------------------------------ ready flags

  ghost predicate CanFlag(p: Pipe, id: nat) {
    && id in p.jobs && p.jobs[id].phase.Flagging? && p.jobs[id].slot < |p.slots|
    && p.jobs[id].off + p.jobs[id].phase.k < |p.slots[p.jobs[id].slot].ready|
  }

  lemma FlagFacts(c: Config, m: Mode, p: Pipe, id: nat)
    requires PipeInv(c, m, p) && id in p.jobs && p.jobs[id].phase.Flagging?
    ensures CanFlag(p, id)
    ensures var j := p.jobs[id]; var x := j.off + j.phase.k;
      && j.phase.k < j.n && Entry(p, j.slot, x) && Delivered(c, m, p, j.slot, x) && !p.slots[j.slot].ready[x]
      && |p.slots[j.slot].ready| == |p.slots[j.slot].consumed| == |p.slots[j.slot].pages|
      && !p.slots[j.slot].consumed[x]
  {
    hide Valid, OwnersOk, Progress, Delivered;
    assert JobOk(c, m, p, p.jobs[id]);
    JobFacts(c, m, p, id, p.jobs[id].off + p.jobs[id].phase.k);
  }

  /** Setting a flag after the bytes are there keeps the invariant. */
  lemma SetFlagKeeps(c: Config, m: Mode, p: Pipe, id: nat)
    requires PipeInv(c, m, p) && id in p.jobs && p.jobs[id].phase.Flagging?
    ensures CanFlag(p, id) && PipeInv(c, m, SetFlag(p, id))
  {
    hide Valid, SlotsOk, OwnersOk, JobsOk, Progress, Delivered, SetFlag;
    FlagFacts(c, m, p, id);
    SetFlagSlots(c, m, p, id);
    SetFlagOwners(c, m, p, id);
    SetFlagJobs(c, m, p, id);
    SetFlagProgress(c, m, p, id);
    SetFlagWin(p, id);
  }

  lemma SetFlagWin(p: Pipe, id: nat)
    requires CanFlag(p, id)
    ensures SetFlag(p, id).win == p.win
  {}

  lemma SetFlagSlots(c: Config, m: Mode, p: Pipe, id: nat)
    requires PipeInv(c, m, p) && id in p.jobs && p.jobs[id].phase.Flagging? && CanFlag(p, id)
    ensures SlotsOk(c, m, SetFlag(p, id))
  {
    hide Valid, OwnersOk, JobsOk, Progress;
    FlagFacts(c, m, p, id);
    assert SlotOk(c, m, p.slots[p.jobs[id].slot]);
    FlagSlot(c, m, p, p.jobs[id].slot, p.jobs[id].off + p.jobs[id].phase.k);
  }

  lemma FlagSlot(c: Config, m: Mode, p: Pipe, s: nat, x: nat)
    requires Entry(p, s, x) && SlotOk(c, m, p.slots[s]) && Delivered(c, m, p, s, x) && x < |p.slots[s].ready|
    ensures SlotOk(c, m, p.slots[s].(ready := p.slots[s].ready[x := true]))
  {}

  lemma SetFlagOwners(c: Config, m: Mode, p: Pipe, id: nat)
    requires PipeInv(c, m, p) && id in p.jobs && p.jobs[id].phase.Flagging? && CanFlag(p, id)
    ensures Shape(c, SetFlag(p, id).win) && OwnersOk(c, SetFlag(p, id))
  {
    hide MapInv, FlagInv, PinInv, SoftInv, BytesInv, JobsOk, Progress, Fills;
    FlagFacts(c, m, p, id);
    var q := SetFlag(p, id);
    forall g | g in q.owner ensures Fills(c, q, q.owner[g].0, q.owner[g].1, g) { SetFlagFills(c, m, p, id, g); }
    forall s: nat, y: nat | Entry(q, s, y) && q.slots[s].direct && y < |q.slots[s].consumed| && y < |q.slots[s].frames| && !q.slots[s].consumed[y]
      ensures q.slots[s].frames[y] in q.owner && q.owner[q.slots[s].frames[y]] == (s, y) {
      assert Entry(p, s, y);
    }
  }

  lemma SetFlagFills(c: Config, m: Mode, p: Pipe, id: nat, g: nat)
    requires PipeInv(c, m, p) && id in p.jobs && p.jobs[id].phase.Flagging? && CanFlag(p, id) && g in p.owner
    ensures Fills(c, SetFlag(p, id), p.owner[g].0, p.owner[g].1, g)
  {
    hide MapInv, FlagInv, PinInv, SoftInv, BytesInv, JobsOk, Progress;
    FlagFacts(c, m, p, id);
    var q := SetFlag(p, id);
    assert Fills(c, p, p.owner[g].0, p.owner[g].1, g);
    assert Entry(p, p.owner[g].0, p.owner[g].1) && Entry(q, p.owner[g].0, p.owner[g].1);
  }

  lemma SetFlagJobs(c: Config, m: Mode, p: Pipe, id: nat)
    requires PipeInv(c, m, p) && id in p.jobs && p.jobs[id].phase.Flagging? && CanFlag(p, id)
    ensures JobsOk(c, m, SetFlag(p, id))
  {
    hide Valid, OwnersOk, SlotsOk, Progress, Delivered, JobOk;
    var q := SetFlag(p, id);
    forall kd | kd in q.jobs ensures kd < q.nextJob && JobOk(c, m, q, q.jobs[kd]) {
      SetFlagJob(c, m, p, id, kd);
    }
    forall a, b | a in q.jobs && b in q.jobs && a != b ensures Apart(q.jobs[a], q.jobs[b]) {
      assert Apart(p.jobs[a], p.jobs[b]);
    }
  }

  lemma SetFlagJob(c: Config, m: Mode, p: Pipe, id: nat, kd: nat)
    requires PipeInv(c, m, p) && id in p.jobs && p.jobs[id].phase.Flagging? && CanFlag(p, id) && kd in SetFlag(p, id).jobs
    ensures JobOk(c, m, SetFlag(p, id), SetFlag(p, id).jobs[kd])
  {
    hide Valid, OwnersOk, SlotsOk, Progress, Delivered;
    FlagFacts(c, m, p, id);
    var q := SetFlag(p, id);
    assert JobOk(c, m, p, p.jobs[kd]);
    assert kd != id ==> Apart(p.jobs[id], p.jobs[kd]);
    var k := q.jobs[kd];
    if k.phase.Flagging? {
      forall x | k.off + Flagged(k) <= x < k.off + k.n ensures Delivered(c, m, q, k.slot, x) {
        FlagDelivered(c, m, p, id, k.slot, x);
      }
    }
  }

  lemma FlagDelivered(c: Config, m: Mode, p: Pipe, id: nat, s: nat, x: nat)
    requires CanFlag(p, id) && Delivered(c, m, p, s, x)
    ensures Delivered(c, m, SetFlag(p, id), s, x)
  {
    assert Entry(p, s, x);
  }

  lemma SetFlagProgress(c: Config, m: Mode, p: Pipe, id: nat)
    requires PipeInv(c, m, p) && id in p.jobs && p.jobs[id].phase.Flagging? && CanFlag(p, id)
    ensures Progress(SetFlag(p, id))
  {
    hide Valid, OwnersOk, SlotsOk, Delivered, JobsOk;
    FlagFacts(c, m, p, id);
    var q := SetFlag(p, id);
    forall s: nat, y: nat | Entry(q, s, y) && y < |q.slots[s].ready| && !q.slots[s].ready[y] ensures Covered(q, s, y) {
      assert Entry(p, s, y);
      var kd :| kd in p.jobs && Covers(p.jobs[kd], s, y);
      assert Covers(q.jobs[kd], s, y);
    }
  }

  // ------------------------------------------------------------ work left

  /** Worker steps left over all jobs with a number below `n`. */
  ghost function WorkBelow(jobs: map<nat, Job>, n: nat): nat {
    if n == 0 then 0 else WorkBelow(jobs, n - 1) + (if n - 1 in jobs then JobWork(jobs[n - 1]) else 0)
  }

  ghost function Work(p: Pipe): nat { WorkBelow(p.jobs, p.nextJob) }

  lemma {:induction false} WorkChange(a: map<nat, Job>, b: map<nat, Job>, n: nat, id: nat)
    requires forall x :: x != id ==> (x in a <==> x in b) && (x in a ==> a[x] == b[x])
    ensures WorkBelow(b, n) ==
      WorkBelow(a, n) + (if id < n && id in b then JobWork(b[id]) else 0) - (if id < n && id in a then JobWork(a[id]) else 0)
  {
    if n > 0 { WorkChange(a, b, n - 1, id); }
  }

  lemma {:induction false} WorkPositive(jobs: map<nat, Job>, n: nat, id: nat)
    requires id < n && id in jobs
    ensures WorkBelow(jobs, n) >= JobWork(jobs[id])
  {
    if id < n - 1 { WorkPositive(jobs, n - 1, id); }
  }

  /** Flagging and ending a read use up work; writing bytes does not add any. */
  lemma FlagWork(c: Config, m: Mode, p: Pipe, id: nat)
    requires PipeInv(c, m, p) && id in p.jobs && p.jobs[id].phase.Flagging? && CanFlag(p, id)
    ensures Work(SetFlag(p, id)) == Work(p) - 1
  {
    FlagFacts(c, m, p, id);
    InvJobs(c, m, p);
    WorkChange(p.jobs, SetFlag(p, id).jobs, p.nextJob, id);
  }

  lemma ReadWork(c: Config, m: Mode, p: Pipe, q: Pipe, id: nat)
    requires PipeInv(c, m, p) && id in p.jobs && p.jobs[id].phase.Writing? && q.nextJob == p.nextJob
    requires q.jobs == p.jobs[id := p.jobs[id].(phase := Flagging(0))]
    ensures Work(q) == Work(p) - 1
  {
    JobPages(c, m, p, id);
    InvJobs(c, m, p);
    WorkChange(p.jobs, q.jobs, p.nextJob, id);
  }

  // ------------------------------------------------------------ the owner and the window

  /** Window operations that leave the frames being filled alone leave the pipe's invariant alone. */
  lemma WindowMoveKeeps(c: Config, m: Mode, p: Pipe, w: Win)
    requires PipeInv(c, m, p) && Valid(c, w) && w.filling == p.win.filling
    requires forall f :: 0 <= f < c.nFrames && w.filling[f] ==> w.key[f] == p.win.key[f] && w.frames[f] == p.win.frames[f]
    ensures PipeInv(c, m, p.(win := w))
  {
    hide MapInv, FlagInv, PinInv, SoftInv, BytesInv, JobOk, Delivered;
    var q := p.(win := w);
    SameProgress(p, q);
    WindowMoveOwners(c, p, w);
    forall id | id in q.jobs ensures JobOk(c, m, q, q.jobs[id]) {
      WindowMoveJob(c, m, p, w, id);
    }
  }

  lemma WindowMoveOwners(c: Config, p: Pipe, w: Win)
    requires Shape(c, p.win) && OwnersOk(c, p) && Shape(c, w) && w.filling == p.win.filling
    requires forall f :: 0 <= f < c.nFrames && w.filling[f] ==> w.key[f] == p.win.key[f] && w.frames[f] == p.win.frames[f]
    ensures OwnersOk(c, p.(win := w))
  {
    var q := p.(win := w);
    forall f | f in q.owner ensures Fills(c, q, q.owner[f].0, q.owner[f].1, f) {
      assert Fills(c, p, p.owner[f].0, p.owner[f].1, f);
      assert Entry(p, p.owner[f].0, p.owner[f].1) && Entry(q, p.owner[f].0, p.owner[f].1);
    }
    forall s: nat, x: nat | Entry(q, s, x) && q.slots[s].direct && x < |q.slots[s].consumed| && x < |q.slots[s].frames| && !q.slots[s].consumed[x]
      ensures q.slots[s].frames[x] in q.owner && q.owner[q.slots[s].frames[x]] == (s, x) {
      assert Entry(p, s, x);
    }
  }

  lemma WindowMoveJob(c: Config, m: Mode, p: Pipe, w: Win, id: nat)
    requires PipeInv(c, m, p) && Valid(c, w) && w.filling == p.win.filling && id in p.jobs
    requires forall f :: 0 <= f < c.nFrames && w.filling[f] ==> w.key[f] == p.win.key[f] && w.frames[f] == p.win.frames[f]
    ensures JobOk(c, m, p.(win := w), p.jobs[id])
  {
    hide MapInv, FlagInv, PinInv, SoftInv, BytesInv, Progress;
    var j := p.jobs[id];
    var q := p.(win := w);
    assert JobOk(c, m, p, j);
    if j.phase.Flagging? {
      forall x | j.off + Flagged(j) <= x < j.off + j.n ensures Delivered(c, m, q, j.slot, x) {
        JobFacts(c, m, p, id, x);
        assert Delivered(c, m, p, j.slot, x);
        if p.slots[j.slot].direct { assert p.owner[p.slots[j.slot].frames[x]] == (j.slot, x); }
      }
    }
  }

  /** A flush leaves the frames being filled alone. */
  lemma FlushKeeps(c: Config, m: Mode, p: Pipe)
    requires PipeInv(c, m, p)
    ensures PipeInv(c, m, p.(win := Flush(c, p.win)))
  {
    FlushValid(c, p.win);
    FlushUpToFrames(c, p.win, c.nFrames);
    WindowMoveKeeps(c, m, p, Flush(c, p.win));
  }

  // ------------------------------------------------------------ the owner and its slots

  /** Noting a ready page of a slot with no frame of its own. */
  lemma MarkKeeps(c: Config, m: Mode, p: Pipe, s: nat, i: nat)
    requires PipeInv(c, m, p) && Entry(p, s, i) && !p.slots[s].direct
    requires i < |p.slots[s].consumed| && EntryReady(p, s, i) && !p.slots[s].consumed[i]
    ensures PipeInv(c, m, Mark(p, s, i))
    ensures Count(Mark(p, s, i).slots[s].consumed) == Count(p.slots[s].consumed) + 1
  {
    hide MapInv, FlagInv, PinInv, SoftInv, BytesInv, JobOk, OwnersOk, Progress;
    CountUpdate(p.slots[s].consumed, i, true);
    assert SlotOk(c, m, p.slots[s]);
    MarkOwners(c, p, s, i);
    MarkRest(c, m, p, s, i);
  }

  lemma MarkOwners(c: Config, p: Pipe, s: nat, i: nat)
    requires Shape(c, p.win) && OwnersOk(c, p) && Entry(p, s, i) && !p.slots[s].direct && i < |p.slots[s].consumed|
    ensures OwnersOk(c, Mark(p, s, i))
  {
    var q := Mark(p, s, i);
    forall f | f in q.owner ensures Fills(c, q, q.owner[f].0, q.owner[f].1, f) {
      assert Fills(c, p, p.owner[f].0, p.owner[f].1, f);
      assert Entry(p, p.owner[f].0, p.owner[f].1) && Entry(q, p.owner[f].0, p.owner[f].1);
    }
    forall t: nat, y: nat | Entry(q, t, y) && q.slots[t].direct && y < |q.slots[t].consumed| && y < |q.slots[t].frames| && !q.slots[t].consumed[y]
      ensures q.slots[t].frames[y] in q.owner && q.owner[q.slots[t].frames[y]] == (t, y) {
      assert Entry(p, t, y);
    }
  }

  lemma MarkRest(c: Config, m: Mode, p: Pipe, s: nat, i: nat)
    requires PipeInv(c, m, p) && Entry(p, s, i) && i < |p.slots[s].consumed|
    ensures JobsOk(c, m, Mark(p, s, i)) && Progress(Mark(p, s, i))
  {
    hide MapInv, FlagInv, PinInv, SoftInv, BytesInv, OwnersOk;
    var q := Mark(p, s, i);
    MarkProgress(p, s, i);
    forall id | id in q.jobs ensures JobOk(c, m, q, q.jobs[id]) {
      assert JobOk(c, m, p, p.jobs[id]);
      forall x: nat | Delivered(c, m, p, p.jobs[id].slot, x) ensures Delivered(c, m, q, p.jobs[id].slot, x) {
        assert Entry(p, p.jobs[id].slot, x) && Entry(q, p.jobs[id].slot, x);
      }
    }
  }

  lemma MarkProgress(p: Pipe, s: nat, i: nat)
    requires Progress(p) && Entry(p, s, i) && i < |p.slots[s].consumed|
    ensures Progress(Mark(p, s, i))
  {
    var q := Mark(p, s, i);
    forall t: nat, x: nat | Entry(q, t, x) && x < |q.slots[t].ready| && !q.slots[t].ready[x] ensures Covered(q, t, x) {
      assert Entry(p, t, x);
      var id :| id in p.jobs && Covers(p.jobs[id], t, x);
      assert Covers(q.jobs[id], t, x);
    }
  }

  /** Adding marked pages to the ready count. */
  lemma AddReadyKeeps(c: Config, m: Mode, p: Pipe, s: nat, n: nat)
    requires PipeInv(c, m, p) && s < |p.slots| && p.slots[s].active && p.slots[s].readyN + n <= Count(p.slots[s].consumed)
    ensures PipeInv(c, m, AddReady(p, s, n))
  {
    hide MapInv, FlagInv, PinInv, SoftInv, BytesInv, JobOk;
    var q := AddReady(p, s, n);
    assert SlotOk(c, m, p.slots[s]);
    SameProgress(p, q);
    SameOwners(c, p, q);
    forall id | id in q.jobs ensures JobOk(c, m, q, q.jobs[id]) {
      SameBytesJob(c, m, p, q, p.jobs[id]);
    }
  }

  lemma SameBytesJob(c: Config, m: Mode, p: Pipe, q: Pipe, j: Job)
    requires SameFlags(p, q) && q.win == p.win && JobOk(c, m, p, j)
    requires forall s :: 0 <= s < |p.slots| ==> q.slots[s].host == p.slots[s].host
    ensures JobOk(c, m, q, j)
  {
    forall x: nat | Delivered(c, m, p, j.slot, x) ensures Delivered(c, m, q, j.slot, x) {
      assert Entry(p, j.slot, x) && Entry(q, j.slot, x);
    }
  }

  /** A slot whose pages are all ready has no job left, and may be cleared once none of them still fills a frame. */
  lemma ClearSlotKeeps(c: Config, m: Mode, p: Pipe, s: nat)
    requires PipeInv(c, m, p) && s < |p.slots|
    requires p.slots[s].active ==> forall i :: 0 <= i < |p.slots[s].pages| ==> EntryReady(p, s, i)
    requires p.slots[s].active && p.slots[s].direct ==>
      |p.slots[s].consumed| == |p.slots[s].pages| && forall i :: 0 <= i < |p.slots[s].consumed| ==> p.slots[s].consumed[i]
    ensures PipeInv(c, m, ClearSlot(p, s))
    ensures forall id :: id in p.jobs ==> p.jobs[id].slot != s
  {
    hide MapInv, FlagInv, PinInv, SoftInv, BytesInv, JobOk;
    var q := ClearSlot(p, s);
    forall id | id in p.jobs ensures p.jobs[id].slot != s {
      JobOpen(c, m, p, id);
      var x := p.jobs[id].off + Flagged(p.jobs[id]);
      JobFacts(c, m, p, id, x);
      assert !EntryReady(p, p.jobs[id].slot, x);
    }
    ClearSlotRest(c, m, p, s);
    forall f | f in q.owner ensures Fills(c, q, q.owner[f].0, q.owner[f].1, f) {
      assert Fills(c, p, p.owner[f].0, p.owner[f].1, f);
      assert Entry(p, p.owner[f].0, p.owner[f].1);
      assert p.owner[f].0 != s;
      assert Entry(q, p.owner[f].0, p.owner[f].1);
    }
    forall t: nat, y: nat | Entry(q, t, y) && q.slots[t].direct && y < |q.slots[t].consumed| && y < |q.slots[t].frames| && !q.slots[t].consumed[y]
      ensures q.slots[t].frames[y] in q.owner && q.owner[q.slots[t].frames[y]] == (t, y) {
      assert Entry(p, t, y);
    }
  }

  lemma JobOpen(c: Config, m: Mode, p: Pipe, id: nat)
    requires PipeInv(c, m, p) && id in p.jobs
    ensures Flagged(p.jobs[id]) < p.jobs[id].n
  {
    hide Valid, OwnersOk, Progress, Delivered;
    assert JobOk(c, m, p, p.jobs[id]);
  }

  lemma ClearSlotRest(c: Config, m: Mode, p: Pipe, s: nat)
    requires PipeInv(c, m, p) && s < |p.slots| && forall id :: id in p.jobs ==> p.jobs[id].slot != s
    ensures JobsOk(c, m, ClearSlot(p, s)) && Progress(ClearSlot(p, s))
  {
    hide MapInv, FlagInv, PinInv, SoftInv, BytesInv, OwnersOk;
    var q := ClearSlot(p, s);
    forall id | id in q.jobs ensures JobOk(c, m, q, q.jobs[id]) {
      assert JobOk(c, m, p, p.jobs[id]);
      forall x: nat | Delivered(c, m, p, p.jobs[id].slot, x) ensures Delivered(c, m, q, p.jobs[id].slot, x) {
        assert Entry(p, p.jobs[id].slot, x) && Entry(q, p.jobs[id].slot, x);
      }
    }
    forall t: nat, x: nat | Entry(q, t, x) && x < |q.slots[t].ready| && !q.slots[t].ready[x] ensures Covered(q, t, x) {
      assert Entry(p, t, x);
      var id :| id in p.jobs && Covers(p.jobs[id], t, x);
      assert Covers(q.jobs[id], t, x);
    }
  }

  // ------------------------------------------------------------ room for fills

  lemma OwnerFacts(c: Config, m: Mode, p: Pipe, f: nat)
    requires PipeInv(c, m, p) && f in p.owner
    ensures f < c.nFrames && p.win.filling[f]
    ensures var (s, i) := p.owner[f];
      s < SLOTS && i < MAX_PAGES && i < |p.slots[s].frames| && p.slots[s].frames[i] == f
  {
    hide MapInv, FlagInv, PinInv, SoftInv, BytesInv, JobsOk, Progress;
    assert Fills(c, p, p.owner[f].0, p.owner[f].1, f) && Entry(p, p.owner[f].0, p.owner[f].1);
    assert SlotOk(c, m, p.slots[p.owner[f].0]);
  }

  /** One pipe never has more than 32 x 1024 frames reserved. */
  lemma FillsBound(c: Config, m: Mode, p: Pipe)
    requires PipeInv(c, m, p)
    ensures Count(p.win.filling) <= 32 * 1024
  {
    hide Valid, SlotsOk, JobsOk, Progress, Fills;
    ValidShape(c, p.win);
    var name := map f | f in p.owner :: p.owner[f].0 * 1024 + p.owner[f].1;
    forall f | f in p.owner ensures name[f] < 32 * 1024 {
      OwnerFacts(c, m, p, f);
    }
    forall f, g | 0 <= f < g < |p.win.filling| && p.win.filling[f] && p.win.filling[g] ensures name[f] != name[g] {
      OwnerFacts(c, m, p, f);
      OwnerFacts(c, m, p, g);
    }
    CountNames(p.win.filling, name, 32 * 1024);
  }

  /** With one slot idle the bound is a slot lower. */
  lemma FillsBoundFree(c: Config, m: Mode, p: Pipe, t: nat)
    requires PipeInv(c, m, p) && t < |p.slots| && !p.slots[t].active
    ensures Count(p.win.filling) <= 31 * 1024
  {
    hide Valid, SlotsOk, JobsOk, Progress, Fills;
    ValidShape(c, p.win);
    InvSlotCount(c, m, p);
    var name := map f | f in p.owner :: (if p.owner[f].0 <= t then p.owner[f].0 else p.owner[f].0 - 1) * 1024 + p.owner[f].1;
    forall f | f in p.owner ensures p.owner[f].0 != t && 0 <= name[f] < 31 * 1024 {
      OwnerFacts(c, m, p, f);
      OwnerActive(c, p, f);
    }
    forall f, g | 0 <= f < g < |p.win.filling| && p.win.filling[f] && p.win.filling[g] ensures name[f] != name[g] {
      OwnerFacts(c, m, p, f);
      OwnerFacts(c, m, p, g);
      OwnerActive(c, p, f);
      OwnerActive(c, p, g);
    }
    CountNames(p.win.filling, name, 31 * 1024);
  }

  lemma InvSlotCount(c: Config, m: Mode, p: Pipe)
    requires PipeInv(c, m, p)
    ensures |p.slots| == 32
  {}

  lemma OwnerActive(c: Config, p: Pipe, f: nat)
    requires Shape(c, p.win) && OwnersOk(c, p) && f in p.owner
    ensures p.owner[f].0 < |p.slots| && p.slots[p.owner[f].0].active
  {
    assert Fills(c, p, p.owner[f].0, p.owner[f].1, f);
    assert Entry(p, p.owner[f].0, p.owner[f].1);
  }

  ghost predicate Roomy(c: Config) {
    c.pinCap + PageOff(32 * 1024, c.pageBytes) < PageOff(c.nFrames, c.pageBytes)
  }

  /** With pin cap and the pipe's bound below the window, the clock always finds an idle frame. */
  lemma PipeHasIdle(c: Config, m: Mode, p: Pipe)
    requires PipeInv(c, m, p) && Roomy(c)
    ensures c.nFrames > 0 && HasIdle(p.win)
  {
    FillsBound(c, m, p);
    RoomyHasIdle(c, p.win, 32 * 1024);
  }

  // ------------------------------------------------------------ committing

  /** Committing a ready page of a slot that fills frames in place: the page is resident, its frame is free of the fill. */
  lemma CommitEntryKeeps(c: Config, m: Mode, p: Pipe, s: nat, i: nat)
    requires PipeInv(c, m, p) && EntryReady(p, s, i) && p.slots[s].direct
    requires i < |p.slots[s].consumed| && !p.slots[s].consumed[i] && i < |p.slots[s].frames|
    ensures var q := CommitEntry(c, p, s, i); var page := p.slots[s].pages[i];
      && PipeInv(c, m, q)
      && page in q.win.pageMap
      && q.win.pageMap == (if page in p.win.pageMap then p.win.pageMap else p.win.pageMap[page := p.slots[s].frames[i]])
      && Count(q.slots[s].consumed) == Count(p.slots[s].consumed) + 1
      && q.slots[s].readyN == p.slots[s].readyN + 1
  {
    hide MapInv, FlagInv, PinInv, SoftInv, BytesInv, JobOk, Progress;
    var sl := p.slots[s];
    var f, page := sl.frames[i], sl.pages[i];
    assert Entry(p, s, i) && p.owner[f] == (s, i) && Fills(c, p, s, i, f);
    CommitValid(c, p.win, page, f, sl.ttl);
    CommitPages(c, p.win, page, f, sl.ttl);
    CountUpdate(sl.consumed, i, true);
    CommitSlots(c, m, p, s, i);
    CommitOwners(c, m, p, s, i);
    CommitRest(c, m, p, s, i);
  }

  lemma CommitSlots(c: Config, m: Mode, p: Pipe, s: nat, i: nat)
    requires Shape(c, p.win) && SlotsOk(c, m, p) && EntryReady(p, s, i) && p.slots[s].direct
    requires i < |p.slots[s].consumed| && !p.slots[s].consumed[i] && i < |p.slots[s].frames|
    ensures SlotsOk(c, m, CommitEntry(c, p, s, i))
  {
    assert SlotOk(c, m, p.slots[s]);
    CountUpdate(p.slots[s].consumed, i, true);
  }

  lemma CommitOwners(c: Config, m: Mode, p: Pipe, s: nat, i: nat)
    requires PipeInv(c, m, p) && EntryReady(p, s, i) && p.slots[s].direct
    requires i < |p.slots[s].consumed| && !p.slots[s].consumed[i] && i < |p.slots[s].frames|
    ensures Shape(c, CommitEntry(c, p, s, i).win) && OwnersOk(c, CommitEntry(c, p, s, i))
  {
    hide MapInv, FlagInv, PinInv, SoftInv, BytesInv, JobsOk, Progress;
    var q := CommitEntry(c, p, s, i);
    var sl := p.slots[s];
    var f, page := sl.frames[i], sl.pages[i];
    assert Entry(p, s, i) && p.owner[f] == (s, i) && Fills(c, p, s, i, f);
    CommitPages(c, p.win, page, f, sl.ttl);
    CommitShape(c, p, s, i);
    CommitOwnersAt(c, p, q, s, i, q.win.key[f], q.slots[s].readyN);
  }

  lemma CommitShape(c: Config, p: Pipe, s: nat, i: nat)
    requires Shape(c, p.win) && s < |p.slots| && i < |p.slots[s].pages| && i < |p.slots[s].frames| && i < |p.slots[s].consumed|
    ensures Shape(c, CommitEntry(c, p, s, i).win)
  {}

  lemma CommitOwnersAt(c: Config, p: Pipe, q: Pipe, s: nat, i: nat, k: Option<nat>, n: nat)
    requires Shape(c, p.win) && Shape(c, q.win) && OwnersOk(c, p) && Entry(p, s, i) && p.slots[s].direct
    requires i < |p.slots[s].consumed| && i < |p.slots[s].frames| && p.slots[s].frames[i] in p.owner
    requires p.owner[p.slots[s].frames[i]] == (s, i)
    requires var f := p.slots[s].frames[i];
      && f < c.nFrames && q.owner == p.owner - {f} && q.win.filling == p.win.filling[f := false]
      && q.win.frames == p.win.frames && q.win.key == p.win.key[f := k]
    requires q.slots == p.slots[s := p.slots[s].(consumed := p.slots[s].consumed[i := true], readyN := n)]
    ensures OwnersOk(c, q)
  {
    hide Fills;
    forall g | g in q.owner ensures g < c.nFrames && q.win.filling[g] && Fills(c, q, q.owner[g].0, q.owner[g].1, g) {
      CommitFills(c, p, q, s, i, k, n, g);
    }
    forall t: nat, y: nat | Entry(q, t, y) && q.slots[t].direct && y < |q.slots[t].consumed| && y < |q.slots[t].frames| && !q.slots[t].consumed[y]
      ensures q.slots[t].frames[y] in q.owner && q.owner[q.slots[t].frames[y]] == (t, y) {
      assert Entry(p, t, y);
    }
  }

  lemma CommitFills(c: Config, p: Pipe, q: Pipe, s: nat, i: nat, k: Option<nat>, n: nat, g: nat)
    requires Shape(c, p.win) && Shape(c, q.win) && OwnersOk(c, p) && Entry(p, s, i) && p.slots[s].direct
    requires i < |p.slots[s].consumed| && i < |p.slots[s].frames| && p.slots[s].frames[i] in p.owner
    requires p.owner[p.slots[s].frames[i]] == (s, i) && g in p.owner && g != p.slots[s].frames[i]
    requires q.win.frames == p.win.frames && p.slots[s].frames[i] < c.nFrames && q.win.key == p.win.key[p.slots[s].frames[i] := k]
    requires q.slots == p.slots[s := p.slots[s].(consumed := p.slots[s].consumed[i := true], readyN := n)]
    ensures Fills(c, q, p.owner[g].0, p.owner[g].1, g)
  {
    assert Fills(c, p, p.owner[g].0, p.owner[g].1, g);
    assert Entry(p, p.owner[g].0, p.owner[g].1) && Entry(q, p.owner[g].0, p.owner[g].1);
  }

  lemma CommitRest(c: Config, m: Mode, p: Pipe, s: nat, i: nat)
    requires PipeInv(c, m, p) && EntryReady(p, s, i) && p.slots[s].direct
    requires i < |p.slots[s].consumed| && !p.slots[s].consumed[i] && i < |p.slots[s].frames|
    ensures JobsOk(c, m, CommitEntry(c, p, s, i)) && Progress(CommitEntry(c, p, s, i))
  {
    hide MapInv, FlagInv, PinInv, SoftInv, BytesInv, OwnersOk;
    var q := CommitEntry(c, p, s, i);
    assert Entry(p, s, i);
    MarkRest(c, m, p, s, i);
    var mk := Mark(p, s, i);
    assert q.slots[s] == mk.slots[s].(readyN := mk.slots[s].readyN + 1);
    SameProgress(mk, q);
    CommitFrames(c, p, s, i);
    CountedJobs(c, m, mk, q, s);
  }

  /** Counting a page changes no job. */
  lemma CountedJobs(c: Config, m: Mode, p: Pipe, q: Pipe, s: nat)
    requires JobsOk(c, m, p) && q.jobs == p.jobs && q.nextJob == p.nextJob && q.win.frames == p.win.frames && s < |p.slots|
    requires q.slots == p.slots[s := p.slots[s].(readyN := p.slots[s].readyN + 1)]
    ensures JobsOk(c, m, q)
  {
    forall id | id in q.jobs ensures JobOk(c, m, q, q.jobs[id]) {
      assert JobOk(c, m, p, p.jobs[id]);
      forall x: nat | Delivered(c, m, p, p.jobs[id].slot, x) ensures Delivered(c, m, q, p.jobs[id].slot, x) {
        assert Entry(p, p.jobs[id].slot, x) && Entry(q, p.jobs[id].slot, x);
      }
    }
  }

  lemma CommitFrames(c: Config, p: Pipe, s: nat, i: nat)
    requires Shape(c, p.win) && s < |p.slots| && i < |p.slots[s].pages| && i < |p.slots[s].frames| && i < |p.slots[s].consumed|
    ensures CommitEntry(c, p, s, i).win.frames == p.win.frames
  {}

  // ------------------------------------------------------------ starting a fill

  /** A new job on a run of slot `s` within [off, n). */
  ghost predicate Fresh(j: Job, s: nat, off: nat, n: nat) {
    j.slot == s && off <= j.off && 0 < j.n <= CHUNK && j.off + j.n <= n && j.phase == Writing
  }

  ghost predicate AllApart(jobs: map<nat, Job>) {
    forall a, b :: a in jobs && b in jobs && a != b ==> Apart(jobs[a], jobs[b])
  }

  /** The jobs of a fill split its pages into runs of at most 32, apart from each other, that leave none out. */
  lemma {:induction false} ChunksCover(first: nat, s: nat, off: nat, n: nat)
    requires off <= n
    ensures forall id :: id in Chunks(first, s, off, n) ==>
      first <= id < first + ChunkCount(off, n) && Fresh(Chunks(first, s, off, n)[id], s, off, n)
    ensures AllApart(Chunks(first, s, off, n))
    ensures forall i :: off <= i < n ==> CoveredBy(Chunks(first, s, off, n), s, i)
    decreases n - off
  {
    if off < n {
      var len := if n - off < CHUNK then n - off else CHUNK;
      ChunksCover(first + 1, s, off + len, n);
      var js, rest := Chunks(first, s, off, n), Chunks(first + 1, s, off + len, n);
      assert js == rest[first := Job(s, off, len, Writing)];
      forall id | id in js ensures first <= id < first + ChunkCount(off, n) && Fresh(js[id], s, off, n) {
        assert id != first ==> id in rest && Fresh(rest[id], s, off + len, n);
      }
      forall a, b | a in js && b in js && a != b ensures Apart(js[a], js[b]) {
        assert a != first ==> Fresh(rest[a], s, off + len, n);
        assert b != first ==> Fresh(rest[b], s, off + len, n);
        assert a != first && b != first ==> Apart(rest[a], rest[b]);
      }
      forall i | off <= i < n ensures CoveredBy(js, s, i) {
        if i < off + len {
          assert Covers(js[first], s, i);
        } else {
          assert CoveredBy(rest, s, i);
          var id :| id in rest && Covers(rest[id], s, i);
          assert id != first && Covers(js[id], s, i);
        }
      }
    }
  }

  /** No flag of a slot that is not active, and no job on it. */
  lemma IdleSlotNoJobs(c: Config, m: Mode, p: Pipe, s: nat)
    requires PipeInv(c, m, p) && s < |p.slots| && !p.slots[s].active
    ensures forall id :: id in p.jobs ==> p.jobs[id].slot != s
  {
    hide Valid, OwnersOk, Progress, Delivered;
    forall id | id in p.jobs ensures p.jobs[id].slot != s {
      assert JobOk(c, m, p, p.jobs[id]);
    }
  }

  /** `q` is `p` with a fresh fill, nothing ready yet, in slot `s`. */
  ghost predicate Started(p: Pipe, q: Pipe, s: nat) {
    && s < |p.slots| == |q.slots| && !p.slots[s].active
    && q.slots == p.slots[s := q.slots[s]]
    && q.slots[s].active && |q.slots[s].ready| == |q.slots[s].pages| > 0
    && (forall i :: 0 <= i < |q.slots[s].ready| ==> !q.slots[s].ready[i])
    && q.jobs == p.jobs + Chunks(p.nextJob, s, 0, |q.slots[s].pages|)
    && q.nextJob == p.nextJob + ChunkCount(0, |q.slots[s].pages|)
  }

  lemma StartedJobs(c: Config, m: Mode, p: Pipe, q: Pipe, s: nat)
    requires PipeInv(c, m, p) && Started(p, q, s)
    requires Shape(c, q.win) && forall f :: 0 <= f < c.nFrames && p.win.filling[f] ==> q.win.frames[f] == p.win.frames[f]
    ensures JobsOk(c, m, q)
  {
    hide MapInv, FlagInv, PinInv, SoftInv, BytesInv, Progress, JobOk, Delivered;
    IdleSlotNoJobs(c, m, p, s);
    ChunksCover(p.nextJob, s, 0, |q.slots[s].pages|);
    var js := Chunks(p.nextJob, s, 0, |q.slots[s].pages|);
    InvJobs(c, m, p);
    forall id | id in q.jobs ensures id < q.nextJob && JobOk(c, m, q, q.jobs[id]) {
      assert id in js ==> Fresh(js[id], s, 0, |q.slots[s].pages|);
      if id in js { NewJobOk(c, m, q, js[id]); } else { OldJobOk(c, m, p, q, s, id); }
    }
    forall a, b | a in q.jobs && b in q.jobs && a != b ensures Apart(q.jobs[a], q.jobs[b]) {
      if a in js && b in js { assert Apart(js[a], js[b]); }
      if a !in js && b !in js { assert Apart(p.jobs[a], p.jobs[b]); }
      assert a in js ==> Fresh(js[a], s, 0, |q.slots[s].pages|);
      assert b in js ==> Fresh(js[b], s, 0, |q.slots[s].pages|);
    }
  }

  lemma NewJobOk(c: Config, m: Mode, q: Pipe, j: Job)
    requires j.slot < |q.slots| && q.slots[j.slot].active && j.phase == Writing && 0 < j.n
    requires j.off + j.n <= |q.slots[j.slot].pages| == |q.slots[j.slot].ready|
    requires forall i :: 0 <= i < |q.slots[j.slot].ready| ==> !q.slots[j.slot].ready[i]
    ensures JobOk(c, m, q, j)
  {}

  lemma OldJobOk(c: Config, m: Mode, p: Pipe, q: Pipe, s: nat, id: nat)
    requires PipeInv(c, m, p) && Started(p, q, s) && id in p.jobs && p.jobs[id].slot != s
    requires Shape(c, q.win) && forall f :: 0 <= f < c.nFrames && p.win.filling[f] ==> q.win.frames[f] == p.win.frames[f]
    ensures JobOk(c, m, q, p.jobs[id])
  {
    hide Valid, SlotsOk, OwnersOk, Progress, Delivered;
    var j := p.jobs[id];
    assert JobOk(c, m, p, j);
    if j.phase.Flagging? {
      forall x | j.off + Flagged(j) <= x < j.off + j.n ensures Delivered(c, m, q, j.slot, x) { OldDelivered(c, m, p, q, s, id, x); }
    }
  }

  /** A page some other fill has been given stays where it was put. */
  lemma OldDelivered(c: Config, m: Mode, p: Pipe, q: Pipe, s: nat, id: nat, x: nat)
    requires PipeInv(c, m, p) && Started(p, q, s) && id in p.jobs && p.jobs[id].slot != s && p.jobs[id].phase.Flagging?
    requires p.jobs[id].off + Flagged(p.jobs[id]) <= x < p.jobs[id].off + p.jobs[id].n
    requires Shape(c, q.win) && forall f :: 0 <= f < c.nFrames && p.win.filling[f] ==> q.win.frames[f] == p.win.frames[f]
    ensures Delivered(c, m, q, p.jobs[id].slot, x)
  {
    hide MapInv, FlagInv, PinInv, SoftInv, BytesInv, Progress;
    var j := p.jobs[id];
    JobFacts(c, m, p, id, x);
    assert JobOk(c, m, p, j) && Delivered(c, m, p, j.slot, x);
    if p.slots[j.slot].direct { assert p.owner[p.slots[j.slot].frames[x]] == (j.slot, x); }
    assert Entry(q, j.slot, x);
  }

  lemma StartedProgress(p: Pipe, q: Pipe, s: nat)
    requires Progress(p) && Started(p, q, s) && forall id :: id in p.jobs ==> id < p.nextJob
    ensures Progress(q)
  {
    var n := |q.slots[s].pages|;
    ChunksCover(p.nextJob, s, 0, n);
    var js := Chunks(p.nextJob, s, 0, n);
    forall t: nat, x: nat | Entry(q, t, x) && x < |q.slots[t].ready| && !q.slots[t].ready[x] ensures Covered(q, t, x) {
      if t == s {
        assert CoveredBy(js, s, x);
        var id :| id in js && Covers(js[id], s, x);
        assert Covers(q.jobs[id], t, x);
      } else {
        assert Entry(p, t, x) && Covered(p, t, x);
        var id :| id in p.jobs && Covers(p.jobs[id], t, x);
        assert id < p.nextJob;
        assert Covers(q.jobs[id], t, x);
      }
    }
  }

  /** Pages a fill may be asked for. */
  ghost predicate Askable(c: Config, pages: seq<nat>) {
    0 < |pages| <= MAX_PAGES && forall i :: 0 <= i < |pages| ==> IsPage(c, pages[i])
  }

  /** Starting a fill through staging memory, or a prefetch, in an idle slot. */
  lemma StartStagedKeeps(c: Config, m: Mode, p: Pipe, s: nat, pages: seq<nat>, ttl: nat)
    requires PipeInv(c, m, p) && s < |p.slots| && !p.slots[s].active && Askable(c, pages)
    ensures PipeInv(c, m, StartStaged(c, m, p, s, pages, ttl))
  {
    hide MapInv, FlagInv, PinInv, SoftInv, BytesInv, JobOk;
    var q := StartStaged(c, m, p, s, pages, ttl);
    InvJobs(c, m, p);
    StartedJobs(c, m, p, q, s);
    StartedProgress(p, q, s);
    StartStagedOwners(c, m, p, s, pages, ttl);
    CountNone(|pages|);
  }

  lemma StartStagedOwners(c: Config, m: Mode, p: Pipe, s: nat, pages: seq<nat>, ttl: nat)
    requires Shape(c, p.win) && OwnersOk(c, p) && s < |p.slots| && !p.slots[s].active
    ensures OwnersOk(c, StartStaged(c, m, p, s, pages, ttl))
  {
    var q := StartStaged(c, m, p, s, pages, ttl);
    forall g | g in q.owner ensures Fills(c, q, q.owner[g].0, q.owner[g].1, g) {
      assert Fills(c, p, p.owner[g].0, p.owner[g].1, g);
      assert Entry(p, p.owner[g].0, p.owner[g].1) && Entry(q, p.owner[g].0, p.owner[g].1);
    }
    forall t: nat, y: nat | Entry(q, t, y) && q.slots[t].direct && y < |q.slots[t].consumed| && y < |q.slots[t].frames| && !q.slots[t].consumed[y]
      ensures q.slots[t].frames[y] in q.owner && q.owner[q.slots[t].frames[y]] == (t, y) {
      assert Entry(p, t, y);
    }
  }

  /** What reserving a list of pages does: new frames, distinct, none of them filling before. */
  ghost predicate Reserved(c: Config, w: Win, w': Win, pages: seq<nat>, frames: seq<nat>)
    requires Shape(c, w) && Shape(c, w')
  {
    && |pages| == |frames| && Distinct(frames)
    && (forall k :: 0 <= k < |frames| ==>
          frames[k] < c.nFrames && !w.filling[frames[k]] && w'.filling[frames[k]] && w'.key[frames[k]] == Some(pages[k]))
    && (forall f :: 0 <= f < c.nFrames && w.filling[f] ==> w'.filling[f] && w'.key[f] == w.key[f] && w'.frames[f] == w.frames[f])
    && (forall f :: 0 <= f < c.nFrames && w'.filling[f] ==> w.filling[f] || f in frames)
    && w'.pinned == w.pinned
  }

  /** Reserving a wave keeps the window valid while the reserved frames leave room. */
  lemma {:induction false} ReserveAllValid(c: Config, w: Win, miss: seq<nat>)
    requires Valid(c, w) && Roomy(c) && c.nFrames > 0 && Count(w.filling) + |miss| <= 32 * 1024
    requires forall i :: 0 <= i < |miss| ==> IsPage(c, miss[i])
    ensures var (w', pages, frames) := ReserveAll(c, w, miss);
      && Valid(c, w') && Reserved(c, w, w', pages, frames) && Count(w'.filling) == Count(w.filling) + |frames|
      && (forall k :: 0 <= k < |pages| ==> pages[k] in miss)
      && (Distinct(miss) ==> Distinct(pages))
  {
    hide MapInv, FlagInv, PinInv, SoftInv, BytesInv, Reserve;
    if miss != [] {
      var init := miss[..|miss| - 1];
      ReserveAllValid(c, w, init);
      var (w1, pages, frames) := ReserveAll(c, w, init);
      var page := miss[|miss| - 1];
      RoomyHasIdle(c, w1, 32 * 1024);
      ReserveOne(c, w, w1, pages, frames, page);
      if Distinct(miss) {
        forall k | 0 <= k < |pages| ensures pages[k] != page { assert pages[k] in init; }
      }
    }
  }

  /** A wave of pages none of which is resident gets a frame for every one. */
  lemma {:induction false} ReserveAllTakes(c: Config, w: Win, miss: seq<nat>)
    requires Shape(c, w) && c.nFrames > 0 && forall i :: 0 <= i < |miss| ==> miss[i] !in w.pageMap
    ensures ReserveAll(c, w, miss).1 == miss && ReserveAll(c, w, miss).0.pageMap.Keys <= w.pageMap.Keys
  {
    hide Reserve, Shape;
    if miss != [] {
      var init := miss[..|miss| - 1];
      ReserveAllTakes(c, w, init);
      assert miss == init + [miss[|miss| - 1]];
      ReserveKeys(c, ReserveAll(c, w, init).0, miss[|miss| - 1]);
    }
  }

  lemma ReserveKeys(c: Config, w: Win, p: nat)
    requires Shape(c, w) && c.nFrames > 0
    ensures Reserve(c, w, p).0.pageMap.Keys <= w.pageMap.Keys
    ensures Reserve(c, w, p).1.Some? <==> p !in w.pageMap
  {
    hide Scan;
  }

  lemma ReserveOne(c: Config, w: Win, w1: Win, pages: seq<nat>, frames: seq<nat>, page: nat)
    requires Shape(c, w) && Valid(c, w1) && Reserved(c, w, w1, pages, frames) && IsPage(c, page) && c.nFrames > 0 && HasIdle(w1)
    ensures var (w2, r) := Reserve(c, w1, page);
      && Valid(c, w2)
      && (r.None? ==> w2 == w1)
      && (r.Some? ==> Reserved(c, w, w2, pages + [page], frames + [r.value]) && Count(w2.filling) == Count(w1.filling) + 1)
  {
    hide MapInv, FlagInv, PinInv, SoftInv, BytesInv, Reserve;
    ReserveValid(c, w1, page);
    var (w2, r) := Reserve(c, w1, page);
    if r.Some? {
      CountUpdate(w1.filling, r.value, true);
      ExtendReserved(c, w, w1, w2, pages, frames, page, r.value);
    }
  }

  lemma ExtendReserved(c: Config, w: Win, w1: Win, w2: Win, pages: seq<nat>, frames: seq<nat>, page: nat, f: nat)
    requires Shape(c, w) && Shape(c, w1) && Shape(c, w2) && Reserved(c, w, w1, pages, frames) && f < c.nFrames && !w1.filling[f]
    requires w2.filling == w1.filling[f := true] && w2.key == w1.key[f := Some(page)] && w2.pinned == w1.pinned
    requires w2.frames == w1.frames[f := w2.frames[f]]
    ensures Reserved(c, w, w2, pages + [page], frames + [f])
  {
    forall g | 0 <= g < c.nFrames && w2.filling[g] ensures w.filling[g] || g in frames + [f] {
      if g == f { assert (frames + [f])[|frames|] == f; }
      else if g in frames { var k :| 0 <= k < |frames| && frames[k] == g; assert (frames + [f])[k] == g; }
    }
  }

  ghost predicate OwnedBy(o: (nat, nat), s: nat, frames: seq<nat>, f: nat) {
    o.0 == s && o.1 < |frames| && frames[o.1] == f
  }

  lemma {:induction false} OwnersMap(s: nat, frames: seq<nat>)
    requires Distinct(frames)
    ensures forall f :: f in Owners(s, frames) ==> OwnedBy(Owners(s, frames)[f], s, frames, f)
    ensures forall k :: 0 <= k < |frames| ==> frames[k] in Owners(s, frames) && Owners(s, frames)[frames[k]] == (s, k)
  {
    if frames != [] {
      var init := frames[..|frames| - 1];
      OwnersMap(s, init);
      forall f | f in Owners(s, frames) ensures OwnedBy(Owners(s, frames)[f], s, frames, f) {
        assert f != frames[|frames| - 1] ==> OwnedBy(Owners(s, init)[f], s, init, f);
      }
    }
  }

  /** Starting a fill straight into window frames, in an idle slot. */
  lemma StartDirectKeeps(c: Config, p: Pipe, s: nat, miss: seq<nat>, ttl: nat)
    requires PipeInv(c, WindowMode, p) && s < |p.slots| && !p.slots[s].active && Askable(c, miss) && Roomy(c) && c.nFrames > 0
    ensures PipeInv(c, WindowMode, StartDirect(c, p, s, miss, ttl))
    ensures forall k :: 0 <= k < |StartDirect(c, p, s, miss, ttl).slots[s].pages| ==> StartDirect(c, p, s, miss, ttl).slots[s].pages[k] in miss
  {
    hide MapInv, FlagInv, PinInv, SoftInv, BytesInv, JobOk;
    FillsBoundFree(c, WindowMode, p, s);
    ReserveAllValid(c, p.win, miss);
    var (w, pages, frames) := ReserveAll(c, p.win, miss);
    var q := StartDirect(c, p, s, miss, ttl);
    if pages == [] {
      NothingReserved(c, p, w, s);
    } else {
      StartedDirect(c, p, q, w, s, miss, pages, frames, ttl);
    }
  }

  lemma NothingReserved(c: Config, p: Pipe, w: Win, s: nat)
    requires PipeInv(c, WindowMode, p) && s < |p.slots| && !p.slots[s].active
    requires Valid(c, w) && Reserved(c, p.win, w, [], [])
    ensures PipeInv(c, WindowMode, p.(win := w, slots := p.slots[s := Cleared(p.slots[s]).(direct := true)]))
  {
    hide MapInv, FlagInv, PinInv, SoftInv, BytesInv, JobOk;
    assert w.filling == p.win.filling;
    WindowMoveKeeps(c, WindowMode, p, w);
    var p1 := p.(win := w);
    ClearSlotKeeps(c, WindowMode, p1, s);
    var sl := Cleared(p.slots[s]).(direct := true);
    IdleSlotAnything(c, WindowMode, ClearSlot(p1, s), s, sl);
    assert p.slots[s := Cleared(p.slots[s])][s := sl] == p.slots[s := sl];
  }

  /** The contents of an idle slot do not matter. */
  lemma IdleSlotAnything(c: Config, m: Mode, p: Pipe, s: nat, sl: Slot)
    requires PipeInv(c, m, p) && s < |p.slots| && !p.slots[s].active && !sl.active
    ensures PipeInv(c, m, p.(slots := p.slots[s := sl]))
  {
    hide MapInv, FlagInv, PinInv, SoftInv, BytesInv, JobOk, OwnersOk;
    var q := p.(slots := p.slots[s := sl]);
    IdleSlotNoJobs(c, m, p, s);
    forall id | id in q.jobs ensures JobOk(c, m, q, q.jobs[id]) { OtherSlotJob(c, m, p, q, s, sl, id); }
    forall t: nat, x: nat | Entry(q, t, x) && x < |q.slots[t].ready| && !q.slots[t].ready[x] ensures Covered(q, t, x) {
      assert Entry(p, t, x) && Covered(p, t, x);
    }
    IdleSlotOwners(c, m, p, s, sl);
  }

  lemma IdleSlotOwners(c: Config, m: Mode, p: Pipe, s: nat, sl: Slot)
    requires PipeInv(c, m, p) && s < |p.slots| && !p.slots[s].active && !sl.active
    ensures OwnersOk(c, p.(slots := p.slots[s := sl]))
  {
    hide MapInv, FlagInv, PinInv, SoftInv, BytesInv, JobOk, JobsOk, Progress;
    var q := p.(slots := p.slots[s := sl]);
    forall g | g in q.owner ensures Fills(c, q, q.owner[g].0, q.owner[g].1, g) {
      assert Fills(c, p, p.owner[g].0, p.owner[g].1, g);
      assert Entry(p, p.owner[g].0, p.owner[g].1) && Entry(q, p.owner[g].0, p.owner[g].1);
    }
    forall t: nat, y: nat | Entry(q, t, y) && q.slots[t].direct && y < |q.slots[t].consumed| && y < |q.slots[t].frames| && !q.slots[t].consumed[y]
      ensures q.slots[t].frames[y] in q.owner && q.owner[q.slots[t].frames[y]] == (t, y) {
      assert Entry(p, t, y);
    }
  }

  lemma OtherSlotJob(c: Config, m: Mode, p: Pipe, q: Pipe, s: nat, sl: Slot, id: nat)
    requires PipeInv(c, m, p) && id in p.jobs && p.jobs[id].slot != s && s < |p.slots|
    requires q == p.(slots := p.slots[s := sl])
    ensures JobOk(c, m, q, p.jobs[id])
  {
    hide MapInv, FlagInv, PinInv, SoftInv, BytesInv, OwnersOk, Progress;
    assert JobOk(c, m, p, p.jobs[id]);
    forall x: nat | Delivered(c, m, p, p.jobs[id].slot, x) ensures Delivered(c, m, q, p.jobs[id].slot, x) {
      assert Entry(p, p.jobs[id].slot, x) && Entry(q, p.jobs[id].slot, x);
    }
  }

  lemma StartedDirect(c: Config, p: Pipe, q: Pipe, w: Win, s: nat, miss: seq<nat>, pages: seq<nat>, frames: seq<nat>, ttl: nat)
    requires PipeInv(c, WindowMode, p) && s < |p.slots| && !p.slots[s].active && Askable(c, miss) && c.nFrames > 0
    requires ReserveAll(c, p.win, miss) == (w, pages, frames) && pages != [] && q == StartDirect(c, p, s, miss, ttl)
    requires Valid(c, w) && Reserved(c, p.win, w, pages, frames) && forall k :: 0 <= k < |pages| ==> pages[k] in miss
    ensures PipeInv(c, WindowMode, q)
  {
    hide MapInv, FlagInv, PinInv, SoftInv, BytesInv, JobOk;
    StartedDirectSlot(c, p, q, w, s, miss, pages, frames, ttl);
    InvJobs(c, WindowMode, p);
    StartedJobs(c, WindowMode, p, q, s);
    StartedProgress(p, q, s);
    StartedDirectOwners(c, p, q, s, frames);
  }

  lemma StartedDirectSlot(c: Config, p: Pipe, q: Pipe, w: Win, s: nat, miss: seq<nat>, pages: seq<nat>, frames: seq<nat>, ttl: nat)
    requires PipeInv(c, WindowMode, p) && s < |p.slots| && !p.slots[s].active && Askable(c, miss) && c.nFrames > 0
    requires ReserveAll(c, p.win, miss) == (w, pages, frames) && pages != [] && q == StartDirect(c, p, s, miss, ttl)
    requires Valid(c, w) && Reserved(c, p.win, w, pages, frames) && forall k :: 0 <= k < |pages| ==> pages[k] in miss
    ensures Started(p, q, s) && SlotsOk(c, WindowMode, q) && q.win == w && q.owner == p.owner + Owners(s, frames)
    ensures q.slots[s].direct && q.slots[s].frames == frames && q.slots[s].pages == pages
    ensures |pages| == |frames| == |q.slots[s].consumed| == |q.slots[s].ready|
    ensures forall k :: 0 <= k < |frames| ==> !q.slots[s].consumed[k] && !q.slots[s].ready[k] && IsPage(c, pages[k])
  {
    hide Valid, JobsOk, OwnersOk, Progress, ReserveAll, Owners, Chunks;
    CountNone(|pages|);
  }

  lemma StartedDirectOwners(c: Config, p: Pipe, q: Pipe, s: nat, frames: seq<nat>)
    requires Shape(c, p.win) && OwnersOk(c, p) && s < |p.slots| && !p.slots[s].active && Shape(c, q.win)
    requires |q.slots| == |p.slots| && q.slots == p.slots[s := q.slots[s]]
    requires q.slots[s].active && q.slots[s].direct && q.slots[s].frames == frames
    requires |q.slots[s].pages| == |frames| == |q.slots[s].consumed| == |q.slots[s].ready|
    requires forall k :: 0 <= k < |frames| ==> !q.slots[s].consumed[k] && !q.slots[s].ready[k] && IsPage(c, q.slots[s].pages[k])
    requires Reserved(c, p.win, q.win, q.slots[s].pages, frames) && q.owner == p.owner + Owners(s, frames)
    ensures OwnersOk(c, q)
  {
    OwnersMap(s, frames);
    var own := Owners(s, frames);
    forall g | g in q.owner ensures g < c.nFrames && q.win.filling[g] && Fills(c, q, q.owner[g].0, q.owner[g].1, g) {
      if g in own {
        assert Entry(q, s, own[g].1);
      } else {
        assert Fills(c, p, p.owner[g].0, p.owner[g].1, g);
        assert Entry(p, p.owner[g].0, p.owner[g].1) && Entry(q, p.owner[g].0, p.owner[g].1);
      }
    }
    forall t: nat, y: nat | Entry(q, t, y) && q.slots[t].direct && y < |q.slots[t].consumed| && y < |q.slots[t].frames| && !q.slots[t].consumed[y]
      ensures q.slots[t].frames[y] in q.owner && q.owner[q.slots[t].frames[y]] == (t, y) {
      if t != s { assert Entry(p, t, y); }
    }
  }
}
