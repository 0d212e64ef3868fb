/**
 In-flight fills (serving/hide_fill.hpp) on values: the atomic actions of the
 copy workers and of the owning search thread.  HidePipe.dfy composes them into
 the owner's loops.
 */
module PipeSpec {
  import opened Common
  import opened WindowSpec

  const SLOTS: nat := 32
  const MAX_PAGES: nat := 1024
  const CHUNK: nat := 32

  /** Where scoring reads vectors from. */
  datatype Mode = WindowMode | Bounce | Vmem

  datatype Slot = Slot(
    pages: seq<nat>,
    host: seq<Bytes>,      // staging pages, unless filling frames directly
    frames: seq<nat>,      // reserved frames, when filling directly
    ready: seq<bool>,      // set by workers
    consumed: seq<bool>,   // set by the owner
    readyN: nat,
    ttl: nat,
    active: bool,
    direct: bool,
    tok: nat)

  function Cleared(sl: Slot): Slot {
    Slot([], [], [], [], [], 0, sl.ttl, false, false, 0)
  }

  /** A job copies `n` pages of a slot and only then sets their ready flags, one by one. */
  datatype Phase = Writing | Flagging(k: nat)
  datatype Job = Job(slot: nat, off: nat, n: nat, phase: Phase)

  /** `owner` records which slot entry a frame was reserved for. */
  datatype Pipe = Pipe(
    slots: seq<Slot>,
    jobs: map<nat, Job>,
    nextJob: nat,
    nextTok: nat,
    owner: map<nat, (nat, nat)>,
    win: Win)

  function Flagged(j: Job): nat {
    match j.phase case Writing => 0 case Flagging(k) => k
  }

  /** Worker steps a job still needs, and all jobs together. */
  function JobWork(j: Job): nat {
    match j.phase case Writing => j.n + 1 case Flagging(k) => if k < j.n then j.n - k else 0
  }

  ghost predicate Entry(p: Pipe, s: nat, i: nat) {
    s < |p.slots| && p.slots[s].active && i < |p.slots[s].pages|
  }

  // ------------------------------------------------------------ worker actions

  /** Bytes arrive at the destination of one page, right or still partial. */
  function Deliver(m: Mode, p: Pipe, s: nat, i: nat, bytes: Bytes): (r: Pipe)
    requires s < |p.slots|
    ensures |r.slots| == |p.slots|
  {
    var sl := p.slots[s];
    if sl.direct then
      if i < |sl.frames| && sl.frames[i] < |p.win.frames| then
        p.(win := p.win.(frames := p.win.frames[sl.frames[i] := bytes]))
      else p
    else if i < |sl.host| then p.(slots := p.slots[s := sl.(host := sl.host[i := bytes])])
    else p
  }

  /** The device read of a whole job has ended: every destination holds its page. */
  function DeliverAll(c: Config, m: Mode, p: Pipe, j: Job, n: nat): (r: Pipe)
    requires j.slot < |p.slots| && j.off + n <= |p.slots[j.slot].pages|
    requires forall i :: 0 <= i < |p.slots[j.slot].pages| ==> p.slots[j.slot].pages[i] + c.pageBytes <= |c.ssd|
    ensures |r.slots| == |p.slots| && r.slots[j.slot].pages == p.slots[j.slot].pages
  {
    if n == 0 then p
    else
      var q := DeliverAll(c, m, p, j, n - 1);
      Deliver(m, q, j.slot, j.off + n - 1, PageAt(c, p.slots[j.slot].pages[j.off + n - 1]))
  }

  function EndRead(c: Config, m: Mode, p: Pipe, id: nat): Pipe
    requires id in p.jobs && p.jobs[id].slot < |p.slots|
    requires var j := p.jobs[id]; j.off + j.n <= |p.slots[j.slot].pages|
    requires forall i :: 0 <= i < |p.slots[p.jobs[id].slot].pages| ==> p.slots[p.jobs[id].slot].pages[i] + c.pageBytes <= |c.ssd|
  {
    var j := p.jobs[id];
    DeliverAll(c, m, p, j, j.n).(jobs := p.jobs[id := j.(phase := Flagging(0))])
  }

  /** One ready flag; the job is over with its last one. */
  function SetFlag(p: Pipe, id: nat): Pipe
    requires id in p.jobs && p.jobs[id].phase.Flagging? && p.jobs[id].slot < |p.slots|
    requires var j := p.jobs[id]; j.off + j.phase.k < |p.slots[j.slot].ready|
  {
    var j := p.jobs[id];
    var sl := p.slots[j.slot];
    p.(slots := p.slots[j.slot := sl.(ready := sl.ready[j.off + j.phase.k := true])],
       jobs := if j.phase.k + 1 < j.n then p.jobs[id := j.(phase := Flagging(j.phase.k + 1))] else p.jobs - {id})
  }

  // ------------------------------------------------------------ owner actions

  /** The owner takes note of a ready page. */
  function Mark(p: Pipe, s: nat, i: nat): Pipe
    requires s < |p.slots| && i < |p.slots[s].consumed|
  {
    p.(slots := p.slots[s := p.slots[s].(consumed := p.slots[s].consumed[i := true])])
  }

  function AddReady(p: Pipe, s: nat, n: nat): Pipe
    requires s < |p.slots|
  {
    p.(slots := p.slots[s := p.slots[s].(readyN := p.slots[s].readyN + n)])
  }

  /** A page filled in place becomes resident. */
  function CommitEntry(c: Config, p: Pipe, s: nat, i: nat): Pipe
    requires s < |p.slots| && i < |p.slots[s].pages| && i < |p.slots[s].frames| && i < |p.slots[s].consumed| && Shape(c, p.win)
  {
    var sl := p.slots[s];
    AddReady(Mark(p, s, i), s, 1).(
      win := Commit(c, p.win, sl.pages[i], sl.frames[i], sl.ttl),
      owner := p.owner - {sl.frames[i]})
  }

  function ClearSlot(p: Pipe, s: nat): Pipe
    requires s < |p.slots|
  {
    p.(slots := p.slots[s := Cleared(p.slots[s])])
  }

  /** The jobs of a new fill: consecutive runs of at most 32 pages. */
  function Chunks(first: nat, s: nat, off: nat, n: nat): (r: map<nat, Job>)
    requires off <= n
    decreases n - off
  {
    if off == n then map[]
    else
      var len := if n - off < CHUNK then n - off else CHUNK;
      Chunks(first + 1, s, off + len, n)[first := Job(s, off, len, Writing)]
  }

  function ChunkCount(off: nat, n: nat): nat
    requires off <= n
    decreases n - off
  {
    if off == n then 0 else 1 + ChunkCount(off + (if n - off < CHUNK then n - off else CHUNK), n)
  }

  /** Slot `s` starts a fill of `pages` through staging memory, or as a prefetch with no destination. */
  function StartStaged(c: Config, m: Mode, p: Pipe, s: nat, pages: seq<nat>, ttl: nat): Pipe
    requires s < |p.slots|
  {
    var n := |pages|;
    var sl := Slot(pages, if m.Vmem? then [] else seq(n, _ => seq(c.pageBytes, _ => 0)), [],
                   seq(n, _ => false), seq(n, _ => false), 0, ttl, true, false, p.nextTok);
    p.(slots := p.slots[s := sl],
       jobs := p.jobs + Chunks(p.nextJob, s, 0, n),
       nextJob := p.nextJob + ChunkCount(0, n),
       nextTok := p.nextTok + 1)
  }

  /** Reserve a frame for each missing page, in order; pages that turn out resident are skipped. */
  function ReserveAll(c: Config, w: Win, miss: seq<nat>): (r: (Win, seq<nat>, seq<nat>))
    requires Shape(c, w) && c.nFrames > 0
    ensures Shape(c, r.0) && |r.1| == |r.2| <= |miss|
  {
    if miss == [] then (w, [], [])
    else
      var (w1, pages, frames) := ReserveAll(c, w, miss[..|miss| - 1]);
      var page := miss[|miss| - 1];
      match Reserve(c, w1, page)
      case (w2, None) => (w2, pages, frames)
      case (w2, Some(fr)) => (w2, pages + [page], frames + [fr])
  }

  function Owners(s: nat, frames: seq<nat>): map<nat, (nat, nat)> {
    if frames == [] then map[] else Owners(s, frames[..|frames| - 1])[frames[|frames| - 1] := (s, |frames| - 1)]
  }

  /** Slot `s` starts a fill straight into window frames. */
  function StartDirect(c: Config, p: Pipe, s: nat, miss: seq<nat>, ttl: nat): Pipe
    requires s < |p.slots| && Shape(c, p.win) && c.nFrames > 0
  {
    var (w, pages, frames) := ReserveAll(c, p.win, miss);
    if pages == [] then p.(win := w, slots := p.slots[s := Cleared(p.slots[s]).(direct := true)])
    else
      var n := |pages|;
      var sl := Slot(pages, [], frames, seq(n, _ => false), seq(n, _ => false), 0, ttl, true, true, p.nextTok);
      p.(slots := p.slots[s := sl],
         jobs := p.jobs + Chunks(p.nextJob, s, 0, n),
         nextJob := p.nextJob + ChunkCount(0, n),
         nextTok := p.nextTok + 1,
         owner := p.owner + Owners(s, frames),
         win := w)
  }
}
