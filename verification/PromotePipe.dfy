/**
 The bounded promote pipeline (serving/promote_pipe.hpp).  Each method is one
 atomic step of the search thread or of a worker; any interleaving is a run.
 Sources are offsets into the image.
 */
module PromotePipes {
  import opened Common
  import opened Counting

  type Bytes = seq<bv8>

  const MAX_W: nat := 16

  datatype St = Free | Queued | Done

  datatype Slot = Slot(st: St, id: nat, src: Option<nat>, len: nat, host: Bytes)

  /** A worker between jobs, with a slot not copied yet, or with one copied but not announced. */
  datatype Worker = Idle | Taken(slot: nat) | Copied(slot: nat) | Gone

  function UsedFlags(slots: seq<Slot>): (r: seq<bool>) {
    seq(|slots|, i requires 0 <= i < |slots| => !slots[i].st.Free?)
  }

  function Resized(host: Bytes, len: nat): (r: Bytes)
    ensures |r| == len
  {
    if |host| >= len then host[..len] else host + seq(len - |host|, _ => 0)
  }

  // ------------------------------------------------------------ who has which slot

  ghost predicate Works(workers: seq<Worker>, t: nat, s: nat) {
    t < |workers| && (workers[t] == Taken(s) || workers[t] == Copied(s))
  }

  ghost predicate Worked(workers: seq<Worker>, s: nat) {
    exists t: nat :: Works(workers, t, s)
  }

  /** A queued slot is waiting in the queue or with one worker, never both; only queued slots are. */
  ghost predicate Handed(slots: seq<Slot>, jobQ: seq<nat>, workers: seq<Worker>) {
    && Distinct(jobQ)
    && (forall s :: s in jobQ ==> s < |slots| && slots[s].st.Queued? && !Worked(workers, s))
    && (forall t: nat, s: nat :: Works(workers, t, s) ==> s < |slots| && slots[s].st.Queued?)
    && (forall t: nat, u: nat, s: nat :: Works(workers, t, s) && Works(workers, u, s) ==> t == u)
    && (forall s: nat :: s < |slots| && slots[s].st.Queued? ==> s in jobQ || Worked(workers, s))
  }

  ghost predicate Asked(image: Bytes, s: Slot) {
    s.src.Some? && s.len > 0 && s.src.value + s.len <= |image| && |s.host| == s.len
  }

  /** The slot holds the bytes it was asked for. */
  ghost predicate Right(image: Bytes, s: Slot) {
    Asked(image, s) && s.host == image[s.src.value..s.src.value + s.len]
  }

  ghost predicate Filled(image: Bytes, slots: seq<Slot>, workers: seq<Worker>) {
    && (forall s: nat :: s < |slots| && !slots[s].st.Free? ==> Asked(image, slots[s]))
    && (forall s: nat :: s < |slots| && slots[s].st.Done? ==> Right(image, slots[s]))
    && (forall t: nat :: t < |workers| && workers[t].Copied? ==> workers[t].slot < |slots| && Right(image, slots[workers[t].slot]))
  }

  /** A free slot is asked for and queued. */
  lemma SubmitHanded(slots: seq<Slot>, jobQ: seq<nat>, workers: seq<Worker>, s: nat, slot: Slot)
    requires Handed(slots, jobQ, workers) && s < |slots| && slots[s].st.Free? && slot.st.Queued?
    ensures Handed(slots[s := slot], jobQ + [s], workers)
  {}

  lemma SubmitFilled(image: Bytes, slots: seq<Slot>, jobQ: seq<nat>, workers: seq<Worker>, s: nat, slot: Slot)
    requires Handed(slots, jobQ, workers) && Filled(image, slots, workers)
    requires s < |slots| && slots[s].st.Free? && slot.st.Queued? && Asked(image, slot)
    ensures Handed(slots[s := slot], jobQ + [s], workers) && Filled(image, slots[s := slot], workers)
  {
    SubmitHanded(slots, jobQ, workers, s, slot);
    CopiedUsed(slots, jobQ, workers);
  }

  /** A worker's state changes but not the slot it has. */
  lemma SameWork(slots: seq<Slot>, jobQ: seq<nat>, workers: seq<Worker>, t: nat, w: Worker)
    requires Handed(slots, jobQ, workers) && t < |workers|
    requires forall s: nat :: (workers[t] == Taken(s) || workers[t] == Copied(s)) <==> (w == Taken(s) || w == Copied(s))
    ensures Handed(slots, jobQ, workers[t := w])
  {
    var after := workers[t := w];
    forall u: nat, s: nat ensures Works(after, u, s) <==> Works(workers, u, s) {}
    forall s: nat ensures Worked(after, s) <==> Worked(workers, s) {
      if Worked(workers, s) { var u: nat :| Works(workers, u, s); assert Works(after, u, s); }
      if Worked(after, s) { var u: nat :| Works(after, u, s); assert Works(workers, u, s); }
    }
  }

  lemma SameStates(slots: seq<Slot>, after: seq<Slot>, jobQ: seq<nat>, workers: seq<Worker>)
    requires Handed(slots, jobQ, workers) && |after| == |slots| && forall s :: 0 <= s < |slots| ==> after[s].st == slots[s].st
    ensures Handed(after, jobQ, workers)
  {}

  /** Copying what was asked for. */
  lemma CopyFills(image: Bytes, slots: seq<Slot>, jobQ: seq<nat>, workers: seq<Worker>, t: nat)
    requires Handed(slots, jobQ, workers) && Filled(image, slots, workers) && t < |workers| && workers[t].Taken?
    ensures var s := workers[t].slot;
      && s < |slots| && Asked(image, slots[s])
      && var c := slots[s].(host := image[slots[s].src.value..slots[s].src.value + slots[s].len]);
      Handed(slots[s := c], jobQ, workers[t := Copied(s)]) && Filled(image, slots[s := c], workers[t := Copied(s)])
  {
    var s := workers[t].slot;
    assert Works(workers, t, s);
    var c := slots[s].(host := image[slots[s].src.value..slots[s].src.value + slots[s].len]);
    SameWork(slots, jobQ, workers, t, Copied(s));
    SameStates(slots, slots[s := c], jobQ, workers[t := Copied(s)]);
  }

  lemma TakeHanded(slots: seq<Slot>, jobQ: seq<nat>, workers: seq<Worker>, t: nat)
    requires Handed(slots, jobQ, workers) && t < |workers| && workers[t].Idle? && jobQ != []
    ensures Handed(slots, jobQ[1..], workers[t := Taken(jobQ[0])])
  {
    var s0 := jobQ[0];
    var after := workers[t := Taken(s0)];
    assert s0 in jobQ;
    assert Works(after, t, s0);
    forall s: nat ensures s in jobQ[1..] <==> s in jobQ && s != s0 { assert jobQ == [s0] + jobQ[1..]; }
    forall u: nat, s: nat ensures Works(after, u, s) <==> (u == t && s == s0) || Works(workers, u, s) {}
    forall s: nat ensures Worked(after, s) <==> s == s0 || Worked(workers, s) {
      if Worked(workers, s) { var u: nat :| Works(workers, u, s); assert Works(after, u, s); }
    }
  }

  lemma AnnounceHanded(slots: seq<Slot>, jobQ: seq<nat>, workers: seq<Worker>, t: nat)
    requires Handed(slots, jobQ, workers) && t < |workers| && workers[t].Copied?
    ensures var s := workers[t].slot; s < |slots| && Handed(slots[s := slots[s].(st := Done)], jobQ, workers[t := Idle])
  {
    var s := workers[t].slot;
    var after := workers[t := Idle];
    assert Works(workers, t, s);
    forall u: nat, r: nat ensures Works(after, u, r) <==> u != t && Works(workers, u, r) {}
    forall r: nat ensures Worked(after, r) <==> r != s && Worked(workers, r) {
      if Worked(workers, r) { var u: nat :| Works(workers, u, r); assert u != t ==> Works(after, u, r); }
      if Worked(after, r) { var u: nat :| Works(after, u, r); assert Works(workers, u, r); }
    }
  }

  class PromotePipe {
    const image: Bytes
    const W: nat
    var slots: seq<Slot>
    var jobQ: seq<nat>
    var inflight: nat
    var stop: bool
    var workers: seq<Worker>

    ghost predicate Valid()
      reads this
    {
      && 1 <= W <= MAX_W && |slots| == W && |workers| == W
      && Handed(slots, jobQ, workers) && Filled(image, slots, workers)
      && inflight == Count(UsedFlags(slots))
    }

    /** `start`: the width is clamped to 1..16. */
    constructor (bytes: Bytes, width: nat)
      ensures Valid() && image == bytes && inflight == 0 && !stop
      ensures W == (if width < 1 then 1 else if width > MAX_W then MAX_W else width)
    {
      image := bytes;
      var w := if width < 1 then 1 else if width > MAX_W then MAX_W else width;
      W := w;
      slots := seq(w, _ => Slot(Free, 0, None, 0, []));
      workers := seq(w, _ => Idle);
      jobQ, inflight, stop := [], 0, false;
      new;
      CountNone(w);
      assert UsedFlags(slots) == seq(w, _ => false);
    }

    /** Outstanding work is bounded, and it is below the width exactly when some slot is free. */
    lemma Room()
      requires Valid()
      ensures inflight <= W
      ensures inflight < W <==> exists s: nat :: s < W && slots[s].st.Free?
      ensures inflight == 0 <==> forall s: nat :: s < W ==> slots[s].st.Free?
    {
      CountBound(UsedFlags(slots));
      CountFull(UsedFlags(slots));
      assert forall s: nat :: s < W ==> UsedFlags(slots)[s] == !slots[s].st.Free?;
    }

    /** `try_submit`: refused only for an empty request or with every slot in use. */
    method TrySubmit(id: nat, src: Option<nat>, len: nat) returns (r: Option<nat>)
      requires Valid() && (src.Some? ==> src.value + len <= |image|)
      modifies this`slots, this`jobQ, this`inflight
      ensures Valid() && (r.None? <==> src.None? || len == 0 || old(inflight) >= W)
      ensures r.None? ==> slots == old(slots) && jobQ == old(jobQ) && inflight == old(inflight)
      ensures r.Some? ==> r.value < W && old(slots)[r.value].st.Free? && jobQ == old(jobQ) + [r.value] && inflight == old(inflight) + 1
      ensures r.Some? ==> slots == old(slots)[r.value := Slot(Queued, id, src, len, slots[r.value].host)]
      ensures r.Some? ==> forall s :: 0 <= s < r.value ==> !old(slots)[s].st.Free?
    {
      if src.None? || len == 0 { return None; }
      if inflight >= W { return None; }
      Room();
      var slot := FirstFree();
      if slot == W { return None; }
      var asked := Slot(Queued, id, src, len, Resized(slots[slot].host, len));
      SubmitFilled(image, slots, jobQ, workers, slot, asked);
      hide Handed, Filled, Count;
      ghost var was := slots;
      slots := slots[slot := asked];
      jobQ := jobQ + [slot];
      inflight := inflight + 1;
      CountUpdate(UsedFlags(was), slot, true);
      assert UsedFlags(slots) == UsedFlags(was)[slot := true];
      return Some(slot);
    }

    method FirstFree() returns (slot: nat)
      requires Valid()
      ensures slot <= W && (slot < W ==> slots[slot].st.Free?) && forall s :: 0 <= s < slot ==> !slots[s].st.Free?
    {
      slot := 0;
      while slot < W && !slots[slot].st.Free?
        invariant slot <= W && forall s :: 0 <= s < slot ==> !slots[s].st.Free?
      {
        slot := slot + 1;
      }
    }

    /** A worker takes the slot queued first. */
    method Take(t: nat)
      requires Valid() && t < |workers| && workers[t].Idle? && jobQ != []
      modifies this`jobQ, this`workers
      ensures Valid() && workers == old(workers)[t := Taken(old(jobQ)[0])] && jobQ == old(jobQ)[1..]
    {
      TakeHanded(slots, jobQ, workers, t);
      hide Handed;
      workers := workers[t := Taken(jobQ[0])];
      jobQ := jobQ[1..];
    }

    /** The copy itself. */
    method Copy(t: nat)
      requires Valid() && t < |workers| && workers[t].Taken?
      modifies this`slots, this`workers
      ensures Valid() && workers == old(workers)[t := Copied(old(workers)[t].slot)]
      ensures var s := old(workers)[t].slot;
        s < W && slots == old(slots)[s := old(slots)[s].(host := slots[s].host)] && Right(image, slots[s])
    {
      CopyFills(image, slots, jobQ, workers, t);
      hide Handed, Filled, Count;
      var s := workers[t].slot;
      var src := slots[s].src.value;
      ghost var was := slots;
      slots := slots[s := slots[s].(host := image[src..src + slots[s].len])];
      workers := workers[t := Copied(s)];
      assert UsedFlags(slots) == UsedFlags(was);
    }

    /** `state.store(Done)`. */
    method Announce(t: nat)
      requires Valid() && t < |workers| && workers[t].Copied?
      modifies this`slots, this`workers
      ensures Valid() && workers == old(workers)[t := Idle]
      ensures var s := old(workers)[t].slot;
        s < W && slots == old(slots)[s := old(slots)[s].(st := Done)] && Right(image, slots[s])
    {
      var s := workers[t].slot;
      AnnounceHanded(slots, jobQ, workers, t);
      assert Works(workers, t, s);
      ghost var was := slots;
      slots := slots[s := slots[s].(st := Done)];
      workers := workers[t := Idle];
      hide Count, Handed;
      assert UsedFlags(slots) == UsedFlags(was);
    }

    /** `release`: the pipeline stays consistent exactly when the slot was not still queued. */
    method Release(s: nat)
      requires Valid() && s < W
      modifies this`slots, this`inflight
      ensures Valid() <==> !old(slots)[s].st.Queued?
      ensures slots == old(slots)[s := old(slots)[s].(st := Free, src := None, len := 0)]
      ensures inflight == old(inflight) - (if old(slots)[s].st.Free? then 0 else 1)
    {
      ghost var was := slots;
      var prev := slots[s].st;
      CopiedUsed(slots, jobQ, workers);
      ReleaseHanded(slots, jobQ, workers, s);
      if !prev.Queued? { ReleaseFilled(image, slots, jobQ, workers, s); }
      CountUpdate(UsedFlags(slots), s, false);
      CountBound(UsedFlags(slots));
      assert UsedFlags(slots)[s] == !prev.Free?;
      hide Handed, Count, Filled;
      slots := slots[s := slots[s].(st := Free, src := None, len := 0)];
      if prev.Done? || prev.Queued? {
        if inflight > 0 { inflight := inflight - 1; }
      }
      assert UsedFlags(slots) == UsedFlags(was)[s := false];
    }

    /** The waiting condition of `wait_done`: its repair of the counter changes nothing while only done slots are released. */
    method Wakes() returns (b: bool)
      requires Valid()
      modifies this`inflight
      ensures Valid() && inflight == old(inflight)
      ensures b <==> stop || inflight == 0 || exists s: nat :: s < W && slots[s].st.Done?
    {
      if stop { return true; }
      for i := 0 to W
        invariant forall s: nat :: s < i ==> !slots[s].st.Done?
      {
        if slots[i].st.Done? { return true; }
      }
      if inflight > 0 && jobQ == [] {
        var active := AnyActive();
        if !active { inflight := 0; }
      }
      AllFree(slots);
      return inflight == 0;
    }

    method AnyActive() returns (active: bool)
      requires Valid()
      ensures active <==> exists s: nat :: s < W && !slots[s].st.Free?
    {
      for i := 0 to W
        invariant forall s: nat :: s < i ==> slots[s].st.Free?
      {
        if slots[i].st.Queued? || slots[i].st.Done? { return true; }
      }
      return false;
    }

    /** `poll_done`: the finished slots, each holding the bytes it was asked for. */
    method PollDone() returns (out: seq<nat>)
      requires Valid()
      ensures forall s: nat :: s in out <==> s < W && slots[s].st.Done?
      ensures Distinct(out) && forall s: nat :: s in out ==> Right(image, slots[s])
      ensures forall i, j :: 0 <= i < j < |out| ==> out[i] < out[j]
    {
      out := [];
      for i := 0 to W
        invariant Distinct(out) && (forall k :: 0 <= k < |out| ==> out[k] < i)
        invariant forall j, k :: 0 <= j < k < |out| ==> out[j] < out[k]
        invariant forall s: nat :: s in out <==> s < i && slots[s].st.Done?
      {
        if slots[i].st.Done? {
          assert i !in out;
          out := out + [i];
        }
      }
    }

    /** A step that worker `t` can take. */
    ghost predicate CanStep(t: nat)
      reads this
    {
      t < |workers| && (workers[t].Taken? || workers[t].Copied? || (workers[t].Idle? && jobQ != []))
    }

    /** With work outstanding and none of it finished, some worker can go on exactly when some worker has not left. */
    lemma NotWedged()
      requires Valid() && inflight > 0 && forall s: nat :: s < W ==> !slots[s].st.Done?
      ensures (exists t: nat :: CanStep(t)) <==> exists t: nat :: t < |workers| && !workers[t].Gone?
    {
      AllFree(slots);
      var s: nat :| s < W && !slots[s].st.Free?;
      assert slots[s].st.Queued?;
      if s in jobQ {
        if t: nat :| t < |workers| && !workers[t].Gone? { assert CanStep(t); }
      } else {
        var t: nat :| Works(workers, t, s);
        assert CanStep(t);
      }
      if t: nat :| CanStep(t) { assert !workers[t].Gone?; }
    }

    method BeginStop()
      requires Valid()
      modifies this`stop
      ensures Valid() && stop
    {
      stop := true;
    }

    /** A worker leaves only when stopping with the queue empty. */
    method Leave(t: nat)
      requires Valid() && t < |workers| && workers[t].Idle? && stop && jobQ == []
      modifies this`workers
      ensures Valid() && workers == old(workers)[t := Gone]
    {
      SameWork(slots, jobQ, workers, t, Gone);
      hide Handed;
      workers := workers[t := Gone];
    }
  }

  lemma AllFree(slots: seq<Slot>)
    ensures Count(UsedFlags(slots)) == 0 <==> forall s: nat :: s < |slots| ==> slots[s].st.Free?
  {
    CountBound(UsedFlags(slots));
    assert forall s: nat :: s < |slots| ==> UsedFlags(slots)[s] == !slots[s].st.Free?;
  }

  lemma CopiedUsed(slots: seq<Slot>, jobQ: seq<nat>, workers: seq<Worker>)
    requires Handed(slots, jobQ, workers)
    ensures forall t: nat :: t < |workers| && workers[t].Copied? ==> workers[t].slot < |slots| && slots[workers[t].slot].st.Queued?
  {
    forall t: nat | t < |workers| && workers[t].Copied? ensures workers[t].slot < |slots| && slots[workers[t].slot].st.Queued? {
      assert Works(workers, t, workers[t].slot);
    }
  }

  lemma ReleaseFilled(image: Bytes, slots: seq<Slot>, jobQ: seq<nat>, workers: seq<Worker>, s: nat)
    requires Handed(slots, jobQ, workers) && Filled(image, slots, workers) && s < |slots| && !slots[s].st.Queued?
    ensures Filled(image, slots[s := slots[s].(st := Free, src := None, len := 0)], workers)
  {
    CopiedUsed(slots, jobQ, workers);
  }

  /** Freeing a slot keeps every hand-over intact exactly when the slot was not still queued. */
  lemma ReleaseHanded(slots: seq<Slot>, jobQ: seq<nat>, workers: seq<Worker>, s: nat)
    requires Handed(slots, jobQ, workers) && s < |slots|
    ensures Handed(slots[s := slots[s].(st := Free, src := None, len := 0)], jobQ, workers) <==> !slots[s].st.Queued?
  {
    if slots[s].st.Queued? {
      if s !in jobQ { var t: nat :| Works(workers, t, s); }
    }
  }

  /** A slot freed while it waits in the queue leaves the queue naming a free slot. */
  lemma QueuedSlotFreed()
    ensures var slots, free := [Slot(Queued, 7, Some(0), 1, [0])], [Slot(Free, 7, None, 0, [0])];
      Handed(slots, [0], [Idle]) && !Handed(free, [0], [Idle])
  {
    var slots, free := [Slot(Queued, 7, Some(0), 1, [0])], [Slot(Free, 7, None, 0, [0])];
    forall s: nat ensures !Worked([Idle], s) {}
    assert slots[0].st.Queued? && 0 in [0];
    assert free[0].st.Free?;
  }
}
