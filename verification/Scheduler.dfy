/**
 The per-thread schedulers of serving/search_beam.cpp (steal and pipe2) as a
 state machine.  Each thread has its own seats and its own source to score from
 (its page window, or its fills in staging memory); the query counter (steal)
 and the issue-depth counter are shared and every access to them is a step of
 its own, so threads interleave between a test and the update it guards.
 */
module Scheduler {
  import opened Common
  import opened Counting
  import opened PageMath
  import opened ContBatch
  import opened BeamSpec
  import opened Seats
  import opened Ledger

  /** Steal: one shared query counter and an issue depth.  Pipe2: a fixed share per thread, no depth. */
  datatype Mode = Steal(qd: nat) | Pipe2

  datatype Plan = Plan(p: Setup, threads: nat, depth: nat, mode: Mode)

  /** Where a thread stands; `g` is the seat it is working on. */
  datatype Pc =
    | Top
    | Looked(more: bool)          // has read the query counter
    | Filling(g: nat)             // chose Fill
    | Trying(g: nat)              // about to read the issue counter
    | Cleared(g: nat)             // found room; about to count itself in
    | Counted(g: nat)             // counted; about to issue
    | Sending(g: nat)             // pipe2: about to issue
    | Backing(g: nat)             // issued nothing; about to count itself out
    | Blocked(g: nat)             // pipe2: about to wait for the seat's pages
    | Ranking(g: nat)
    | Finishing(g: nat)
    | Exited

  datatype Sys = Sys(seats: seq<Seat>, pcs: seq<Pc>, sources: seq<Source>, nexts: seq<nat>, nand: nat,
                     results: map<nat, seq<nat>>)

  datatype Ev =
    | Look
    | Choose(cov: seq<bool>)
    | Claim
    | Try
    | CountIn
    | Send(tok: Option<nat>)
    | CountOut
    | Waited(toks: seq<nat>)
    | Rank(again: bool, now: bool, early: seq<nat>, late: seq<nat>)
    | Finish(sorted: seq<Cand>)
    | SourceMoves(src: Source)    // fills land, pages come and go; the kind of source stays

  ghost predicate GoodPlan(pl: Plan) {
    GoodSetup(pl.p) && pl.threads > 0 && pl.depth > 0
  }

  function LaneCount(pl: Plan): nat {
    if pl.mode.Steal? then 1 else pl.threads
  }

  function Lane(pl: Plan, t: nat): nat {
    if pl.mode.Steal? then 0 else t
  }

  function Base(pl: Plan, t: nat): nat {
    PageOff(t, pl.depth)
  }

  ghost predicate Owns(pl: Plan, t: nat, g: nat) {
    Base(pl, t) <= g < Base(pl, t) + pl.depth
  }

  ghost predicate Sized(pl: Plan, y: Sys) {
    && GoodPlan(pl)
    && |y.seats| == Base(pl, pl.threads) && |y.pcs| == |y.sources| == pl.threads
    && |y.nexts| == LaneCount(pl)
  }

  lemma OwnsInside(pl: Plan, y: Sys, t: nat)
    requires Sized(pl, y) && t < pl.threads
    ensures Base(pl, t) + pl.depth <= |y.seats| && Lane(pl, t) < |y.nexts|
  {
    StepMul(t, pl.threads, pl.depth);
  }

  lemma OwnersApart(pl: Plan, t: nat, u: nat, g: nat)
    requires t != u && Owns(pl, t, g)
    ensures !Owns(pl, u, g)
  {
    StepMul(t, u, pl.depth);
    StepMul(u, t, pl.depth);
  }

  /** Every seat belongs to some thread. */
  lemma OwnerOf(pl: Plan, y: Sys, g: nat) returns (t: nat)
    requires Sized(pl, y) && g < |y.seats|
    ensures t < pl.threads && Owns(pl, t, g)
  {
    t := g / pl.depth;
    PageDownOf(g, pl.depth);
    if t >= pl.threads { OffOrder(pl.threads, t, pl.depth); }
  }

  function Statuses(pl: Plan, y: Sys, t: nat): (r: seq<CbSt>)
    requires Base(pl, t) + pl.depth <= |y.seats|
    ensures |r| == pl.depth
  {
    seq(pl.depth, i requires 0 <= i < pl.depth => y.seats[Base(pl, t) + i].st)
  }

  // ------------------------------------------------------------ steps

  /** Coverage may come out either way, except that a parked seat needing no page is covered. */
  ghost predicate CovOk(pl: Plan, y: Sys, t: nat, cov: seq<bool>)
    requires Base(pl, t) + pl.depth <= |y.seats|
  {
    && |cov| == pl.depth
    && forall i :: 0 <= i < pl.depth && y.seats[Base(pl, t) + i].st.Ready? && y.seats[Base(pl, t) + i].need == [] ==> cov[i]
  }

  function Decision(pl: Plan, y: Sys, t: nat, cov: seq<bool>, more: bool): Act
    requires Base(pl, t) + pl.depth <= |y.seats| && |cov| == pl.depth
  {
    if pl.mode.Steal? then StealDecide(Statuses(pl, y, t), cov, more, IssueQdOk(y.nand, pl.mode.qd))
    else Pipe2Decide(Statuses(pl, y, t), cov, more)
  }

  function Target(pl: Plan, t: nat, d: Act): Pc {
    match d
    case Fill(i) => Filling(Base(pl, t) + i)
    case Rank(i) => Ranking(Base(pl, t) + i)
    case WaitFor(i) => Blocked(Base(pl, t) + i)
    case Issue(i) => Trying(Base(pl, t) + i)
    case Pump(_) => Top
    case Finished => Exited
  }

  function AddToks(s: Seat, toks: seq<nat>): Seat {
    s.(toks := s.toks + toks)
  }

  ghost predicate Enabled(pl: Plan, y: Sys, t: nat, e: Ev)
    requires Sized(pl, y) && t < pl.threads
  {
    OwnsInside(pl, y, t);
    match e
    case SourceMoves(src) => Readable(pl.p, src) && SameKind(y.sources[t], src)
    case Look => y.pcs[t].Top?
    case Choose(cov) => y.pcs[t].Looked? && CovOk(pl, y, t, cov)
    case Claim => y.pcs[t].Filling? && y.pcs[t].g < |y.seats|
    case Try => y.pcs[t].Trying? && y.pcs[t].g < |y.seats| && pl.mode.Steal?
    case CountIn => y.pcs[t].Cleared?
    case Send(tok) =>
      && ((y.pcs[t].Counted? && pl.mode.Steal?) || (y.pcs[t].Sending? && pl.mode.Pipe2?)) && y.pcs[t].g < |y.seats|
      && (NeedOf(pl.p, y.seats[y.pcs[t].g].q.cand) == [] ==> tok.None?)
    case CountOut => y.pcs[t].Backing? && y.pcs[t].g < |y.seats| && y.nand > 0
    case Waited(_) => y.pcs[t].Blocked? && y.pcs[t].g < |y.seats|
    case Rank(again, now, _, _) =>
      && y.pcs[t].Ranking? && y.pcs[t].g < |y.seats| && y.seats[y.pcs[t].g].qi < |pl.p.asks|
      && (y.seats[y.pcs[t].g].need == [] ==> again && now)
      && (now ==> Covering(y.sources[t], y.seats[y.pcs[t].g].need))
    case Finish(sorted) =>
      && y.pcs[t].Finishing? && y.pcs[t].g < |y.seats| && SortOf(y.seats[y.pcs[t].g].q.cand, sorted)
      && (y.seats[y.pcs[t].g].held ==> y.nand > 0)
  }

  function Go(y: Sys, t: nat, pc: Pc): Sys
    requires t < |y.pcs|
  {
    y.(pcs := y.pcs[t := pc])
  }

  function Put(y: Sys, g: nat, s: Seat): Sys
    requires g < |y.seats|
  {
    y.(seats := y.seats[g := s])
  }

  /** `try_issue` after counting in, or pipe2's blocking issue. */
  ghost function SendStep(pl: Plan, y: Sys, t: nat, tok: Option<nat>): Sys
    requires Sized(pl, y) && t < pl.threads && Enabled(pl, y, t, Send(tok))
  {
    var g := y.pcs[t].g;
    var s := Issued(pl.p, y.seats[g], tok);
    if pl.mode.Pipe2? then Go(Put(y, g, s), t, Top)
    else Go(Put(y, g, s.(held := true)), t, if s.need == [] || s.toks == [] then Backing(g) else Top)
  }

  /** One covering test, then `pqq_rank` with its own. */
  ghost function RankStep(pl: Plan, y: Sys, t: nat, e: Ev): Sys
    requires Sized(pl, y) && t < pl.threads && e.Rank? && Enabled(pl, y, t, e)
  {
    var g := y.pcs[t].g;
    if !e.again && pl.mode.Steal? then Go(y, t, Top)
    else
      var s := if e.again then y.seats[g] else AddToks(y.seats[g], e.early);
      var (r, ok) := if e.now then RankOnce(pl.p, s, y.sources[t]) else (s, false);
      if ok then Go(Put(y, g, r), t, Finishing(g))
      else Go(Put(y, g, (if pl.mode.Pipe2? then AddToks(r, e.late) else r).(st := Wait)), t, Top)
  }

  ghost function Apply(pl: Plan, y: Sys, t: nat, e: Ev): Sys
    requires Sized(pl, y) && t < pl.threads && Enabled(pl, y, t, e)
  {
    OwnsInside(pl, y, t);
    match e
    case SourceMoves(src) => y.(sources := y.sources[t := src])
    case Look => Go(y, t, Looked(y.nexts[Lane(pl, t)] < |pl.p.asks|))
    case Choose(cov) => Go(y, t, Target(pl, t, Decision(pl, y, t, cov, y.pcs[t].more)))
    case Claim =>
      var l := Lane(pl, t);
      var qi := y.nexts[l];
      var taken := y.(nexts := Take(y.nexts, l));
      if qi >= |pl.p.asks| then Go(taken, t, Top)
      else
        var g := y.pcs[t].g;
        Go(Put(taken, g, Admitted(pl.p, qi)), t, if pl.mode.Steal? then Trying(g) else Sending(g))
    case Try =>
      var g := y.pcs[t].g;
      if IssueQdOk(y.nand, pl.mode.qd) then Go(y, t, Cleared(g))
      else Go(Put(y, g, y.seats[g].(st := Hold)), t, Top)
    case CountIn => Go(y.(nand := y.nand + 1), t, Counted(y.pcs[t].g))
    case Send(tok) => SendStep(pl, y, t, tok)
    case CountOut =>
      var g := y.pcs[t].g;
      var s := y.seats[g].(held := false);
      Go(Put(y, g, if s.need == [] then s else s.(st := Hold)).(nand := y.nand - 1), t, Top)
    case Waited(toks) => Go(Put(y, y.pcs[t].g, AddToks(y.seats[y.pcs[t].g], toks)), t, Top)
    case Rank(_, _, _, _) => RankStep(pl, y, t, e)
    case Finish(sorted) =>
      var g := y.pcs[t].g;
      var s := y.seats[g];
      Go(Put(y, g, EmptySeat()).(results := y.results[s.qi := Outcome(pl.p, sorted)],
                                 nand := if s.held then y.nand - 1 else y.nand), t, Top)
  }

  ghost predicate Start(pl: Plan, y: Sys) {
    && Sized(pl, y) && y.nand == 0 && y.results == map[]
    && (forall g :: 0 <= g < |y.seats| ==> y.seats[g] == EmptySeat())
    && (forall t :: 0 <= t < pl.threads ==> y.pcs[t].Top? && Readable(pl.p, y.sources[t]))
    && OneKind(y.sources)
    && (forall l :: 0 <= l < |y.nexts| ==> y.nexts[l] == l)
  }

  // ------------------------------------------------------------ the invariant

  /** A seat no step is working on. */
  ghost predicate Settled(pl: Plan, s: Seat) {
    match s.st
    case Empty => s == EmptySeat()
    case Ready => Tracked(pl.p, s) && s.need == [] && s.q.cand == [] && !s.held && s.toks == []
    case Wait => Tracked(pl.p, s) && s.need == NeedOf(pl.p, s.q.cand) != [] && (if pl.mode.Steal? then s.held && s.toks != [] else !s.held)
    case Hold => pl.mode.Steal? && Tracked(pl.p, s) && !s.held && s.toks == []
    case _ => false
  }

  ghost predicate AtWork(pl: Plan, pc: Pc, s: Seat) {
    match pc
    case Filling(_) => s == EmptySeat()
    case Trying(_) => pl.mode.Steal? && Tracked(pl.p, s) && !s.held && s.toks == [] && (s.st.Ready? || s.st.Hold?)
    case Cleared(_) => pl.mode.Steal? && Tracked(pl.p, s) && !s.held && s.toks == [] && (s.st.Ready? || s.st.Hold?)
    case Counted(_) => pl.mode.Steal? && Tracked(pl.p, s) && !s.held && s.toks == [] && (s.st.Ready? || s.st.Hold?)
    case Sending(_) => pl.mode.Pipe2? && Tracked(pl.p, s) && !s.held && s.toks == [] && s.st.Ready?
    case Backing(_) =>
      && pl.mode.Steal? && Tracked(pl.p, s) && s.held && s.toks == [] && s.need == NeedOf(pl.p, s.q.cand)
      && s.st == (if s.need == [] then Ready else Wait)
    case Blocked(_) => Settled(pl, s) && s.st.Wait? && pl.mode.Pipe2?
    case Ranking(_) => Settled(pl, s) && (s.st.Wait? || s.st.Ready?)
    case Finishing(_) => s.st.Done? && Tracked(pl.p, s) && Scored(pl.p, s) && (s.held ==> pl.mode.Steal?)
    case _ => false
  }

  predicate HasSeat(pc: Pc) {
    !pc.Top? && !pc.Looked? && !pc.Exited?
  }

  /** A thread's seats are settled, all but the one it is working on; one that left has none in use and no query to come. */
  ghost predicate ThreadOk(pl: Plan, seats: seq<Seat>, nexts: seq<nat>, t: nat, pc: Pc)
    requires Lane(pl, t) < |nexts| && Base(pl, t) + pl.depth <= |seats|
  {
    && (HasSeat(pc) ==> Owns(pl, t, pc.g) && AtWork(pl, pc, seats[pc.g]))
    && (forall g: nat :: Owns(pl, t, g) && !(HasSeat(pc) && pc.g == g) ==> Settled(pl, seats[g]))
    && (pc.Exited? ==> nexts[Lane(pl, t)] >= |pl.p.asks| && forall g: nat :: Owns(pl, t, g) ==> seats[g].st.Empty?)
    && (pc.Looked? && !pc.more ==> nexts[Lane(pl, t)] >= |pl.p.asks|)
  }

  ghost predicate ThreadsOk(pl: Plan, y: Sys)
    requires Sized(pl, y)
  {
    forall t: nat :: t < pl.threads ==> ThreadAt(pl, y, t)
  }

  ghost predicate ThreadAt(pl: Plan, y: Sys, t: nat)
    requires Sized(pl, y) && t < pl.threads
  {
    OwnsInside(pl, y, t);
    ThreadOk(pl, y.seats, y.nexts, t, y.pcs[t])
  }

  function HeldFlags(seats: seq<Seat>): (r: seq<bool>) {
    seq(|seats|, i requires 0 <= i < |seats| => seats[i].held)
  }

  function CountedFlags(pcs: seq<Pc>): (r: seq<bool>) {
    seq(|pcs|, i requires 0 <= i < |pcs| => pcs[i].Counted?)
  }

  function ClearedFlags(pcs: seq<Pc>): (r: seq<bool>) {
    seq(|pcs|, i requires 0 <= i < |pcs| => pcs[i].Cleared?)
  }

  /** The counter is the seats holding a place plus the threads counted in but not yet holding. */
  ghost predicate NandOk(pl: Plan, y: Sys) {
    && y.nand == Count(HeldFlags(y.seats)) + Count(CountedFlags(y.pcs))
    && (pl.mode.Steal? && pl.mode.qd > 0 ==> y.nand + Count(ClearedFlags(y.pcs)) <= pl.mode.qd + |y.pcs| - 1)
  }

  ghost predicate AnswersOk(pl: Plan, y: Sys) {
    GoodPlan(pl) && forall qi :: qi in y.results ==> qi < |pl.p.asks| && Answer(pl.p, qi, y.results[qi])
  }

  /** All threads score alike: the mode is set for the whole run. */
  predicate OneKind(sources: seq<Source>) {
    forall t, u :: 0 <= t < |sources| && 0 <= u < |sources| ==> SameKind(sources[t], sources[u])
  }

  ghost predicate SourcesOk(pl: Plan, y: Sys) {
    GoodSetup(pl.p) && (forall t :: 0 <= t < |y.sources| ==> Readable(pl.p, y.sources[t])) && OneKind(y.sources)
  }

  ghost predicate Inv(pl: Plan, y: Sys) {
    && Sized(pl, y) && ThreadsOk(pl, y) && SourcesOk(pl, y)
    && Booked(|pl.p.asks|, y.seats, y.results, y.nexts)
    && NandOk(pl, y) && AnswersOk(pl, y)
  }
}
