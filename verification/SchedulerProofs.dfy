/** What every interleaving of the per-thread schedulers keeps, and what that gives. */
module SchedulerProofs {
  import opened Common
  import opened Counting
  import opened ContBatch
  import opened BeamSpec
  import opened Query
  import opened Seats
  import opened Ledger
  import opened Scheduler

  // ------------------------------------------------------------ frames

  /** `y'` differs from `y` at thread `t`, at its seat `g`, and in counters that only grow. */
  ghost predicate Near(pl: Plan, y: Sys, y': Sys, t: nat, g: nat)
  {
    && Sized(pl, y) && Sized(pl, y') && t < pl.threads && Owns(pl, t, g) && g < |y.seats|
    && y'.seats == y.seats[g := y'.seats[g]]
    && y'.pcs == y.pcs[t := y'.pcs[t]]
    && (forall l :: 0 <= l < |y.nexts| ==> y.nexts[l] <= y'.nexts[l])
  }

  lemma OthersKept(pl: Plan, y: Sys, y': Sys, t: nat, g: nat, u: nat)
    requires Near(pl, y, y', t, g) && u < pl.threads && u != t && ThreadAt(pl, y, u)
    ensures ThreadAt(pl, y', u)
  {
    hide AtWork, Settled;
    OwnsInside(pl, y, u);
    forall h: nat | Owns(pl, u, h) ensures h != g { if h == g { OwnersApart(pl, t, u, g); } }
  }

  lemma ThreadsKept(pl: Plan, y: Sys, y': Sys, t: nat, g: nat)
    requires Near(pl, y, y', t, g) && ThreadsOk(pl, y) && ThreadAt(pl, y', t)
    ensures ThreadsOk(pl, y')
  {
    assert Sized(pl, y) && Sized(pl, y');
    hide ThreadAt, Near, Sized;
    forall u: nat | u < pl.threads ensures ThreadAt(pl, y', u) {
      assert ThreadAt(pl, y, u);
      if u != t { OthersKept(pl, y, y', t, g, u); }
    }
  }

  /** A settled thread step: only the seat at hand and the thread's place change. */
  lemma ThreadMoved(pl: Plan, y: Sys, y': Sys, t: nat, g: nat)
    requires Near(pl, y, y', t, g) && ThreadAt(pl, y, t) && !y'.pcs[t].Exited? && !y'.pcs[t].Looked?
    requires HasSeat(y.pcs[t]) ==> y.pcs[t].g == g
    requires if HasSeat(y'.pcs[t]) then y'.pcs[t].g == g && AtWork(pl, y'.pcs[t], y'.seats[g]) else Settled(pl, y'.seats[g])
    ensures ThreadAt(pl, y', t)
  {
    hide AtWork, Settled;
    OwnsInside(pl, y, t);
  }

  function One(b: bool): nat { if b then 1 else 0 }

  lemma Recount(pl: Plan, y: Sys, y': Sys, t: nat, g: nat)
    requires Near(pl, y, y', t, g)
    ensures Count(HeldFlags(y'.seats)) == Count(HeldFlags(y.seats)) + One(y'.seats[g].held) - One(y.seats[g].held)
    ensures Count(CountedFlags(y'.pcs)) == Count(CountedFlags(y.pcs)) + One(y'.pcs[t].Counted?) - One(y.pcs[t].Counted?)
    ensures Count(ClearedFlags(y'.pcs)) == Count(ClearedFlags(y.pcs)) + One(y'.pcs[t].Cleared?) - One(y.pcs[t].Cleared?)
    ensures !y.pcs[t].Cleared? ==> Count(ClearedFlags(y.pcs)) <= |y.pcs| - 1
    ensures y.seats[g].held ==> Count(HeldFlags(y.seats)) > 0
  {
    hide Owns;
    assert HeldFlags(y'.seats) == HeldFlags(y.seats)[g := y'.seats[g].held];
    assert CountedFlags(y'.pcs) == CountedFlags(y.pcs)[t := y'.pcs[t].Counted?];
    assert ClearedFlags(y'.pcs) == ClearedFlags(y.pcs)[t := y'.pcs[t].Cleared?];
    CountUpdate(HeldFlags(y.seats), g, y'.seats[g].held);
    CountUpdate(CountedFlags(y.pcs), t, y'.pcs[t].Counted?);
    CountUpdate(ClearedFlags(y.pcs), t, y'.pcs[t].Cleared?);
    CountBound(ClearedFlags(y.pcs));
    CountFull(ClearedFlags(y.pcs));
    CountBound(HeldFlags(y.seats));
  }

  /** A step that changes no claim, no answer and no source. */
  lemma Kept(pl: Plan, y: Sys, y': Sys, t: nat, g: nat)
    requires Inv(pl, y) && Near(pl, y, y', t, g) && ThreadAt(pl, y', t)
    requires y'.nexts == y.nexts && y'.results == y.results && y'.sources == y.sources
    requires y'.seats[g] == y.seats[g] || (!y.seats[g].st.Empty? && !y'.seats[g].st.Empty? && y'.seats[g].qi == y.seats[g].qi)
    requires NandOk(pl, y')
    ensures Inv(pl, y')
  {
    hide ThreadAt, Booked, NandOk, Readable, Answer, ThreadsOk;
    ThreadsKept(pl, y, y', t, g);
    assert Booked(|pl.p.asks|, y'.seats, y'.results, y'.nexts) by {
      if y'.seats[g] == y.seats[g] {
        assert y'.seats == y.seats;
      } else {
        BookMove(|pl.p.asks|, y.seats, y.results, y.nexts, g, y'.seats[g]);
      }
    }
  }

  /** A step of a thread on its own seat, told apart only by what it does to the counter. */
  lemma Within(pl: Plan, y: Sys, y': Sys, t: nat, g: nat)
    requires Inv(pl, y) && Near(pl, y, y', t, g) && HasSeat(y.pcs[t]) && y.pcs[t].g == g
    requires !y'.pcs[t].Exited? && !y'.pcs[t].Looked?
    requires if HasSeat(y'.pcs[t]) then y'.pcs[t].g == g && AtWork(pl, y'.pcs[t], y'.seats[g]) else Settled(pl, y'.seats[g])
    requires y'.nexts == y.nexts && y'.results == y.results && y'.sources == y.sources
    requires y'.seats[g] == y.seats[g] || (!y.seats[g].st.Empty? && !y'.seats[g].st.Empty? && y'.seats[g].qi == y.seats[g].qi)
    requires y'.nand + One(y.seats[g].held) + One(y.pcs[t].Counted?) == y.nand + One(y'.seats[g].held) + One(y'.pcs[t].Counted?)
    requires y'.nand + One(y'.pcs[t].Cleared?) <= y.nand + One(y.pcs[t].Cleared?)
          || (!y.pcs[t].Cleared? && y'.nand == y.nand && pl.mode.Steal? && IssueQdOk(y.nand, pl.mode.qd))
    ensures Inv(pl, y')
  {
    assert ThreadAt(pl, y, t);
    hide AtWork, Settled, Booked, ThreadsOk, SourcesOk, AnswersOk, ThreadAt;
    ThreadMoved(pl, y, y', t, g);
    Recount(pl, y, y', t, g);
    Kept(pl, y, y', t, g);
  }

  /** A thread that moves on touching no seat and no counter. */
  lemma Moved(pl: Plan, y: Sys, t: nat, pc: Pc, g: nat)
    requires Inv(pl, y) && t < pl.threads && Owns(pl, t, g) && g < |y.seats|
    requires !pc.Counted? && !pc.Cleared? && !y.pcs[t].Counted? && !y.pcs[t].Cleared?
    requires Sized(pl, Go(y, t, pc)) && ThreadAt(pl, Go(y, t, pc), t)
    ensures Inv(pl, Go(y, t, pc))
  {
    hide Booked, ThreadsOk, SourcesOk, AnswersOk, ThreadAt;
    var y' := Go(y, t, pc);
    assert y'.seats == y.seats[g := y'.seats[g]];
    Recount(pl, y, y', t, g);
    Kept(pl, y, y', t, g);
  }

  lemma AtThread(pl: Plan, y: Sys, t: nat)
    requires Inv(pl, y) && t < pl.threads
    ensures ThreadAt(pl, y, t) && Base(pl, t) + pl.depth <= |y.seats| && Lane(pl, t) < |y.nexts| && Owns(pl, t, Base(pl, t))
  {
    hide ThreadAt;
    OwnsInside(pl, y, t);
  }

  lemma AtSeat(pl: Plan, y: Sys, t: nat)
    requires Inv(pl, y) && t < pl.threads && HasSeat(y.pcs[t])
    ensures Sized(pl, y) && ThreadAt(pl, y, t) && y.pcs[t].g < |y.seats| && Owns(pl, t, y.pcs[t].g) && AtWork(pl, y.pcs[t], y.seats[y.pcs[t].g])
  {
    OwnsInside(pl, y, t);
    assert ThreadAt(pl, y, t);
  }

  /** A thread's seat, its place and the issue counter change. */
  function Move(y: Sys, t: nat, g: nat, s: Seat, pc: Pc, k: nat): Sys
    requires t < |y.pcs| && g < |y.seats|
  {
    y.(seats := y.seats[g := s], pcs := y.pcs[t := pc], nand := k)
  }

  /** When such a move keeps the invariant. */
  lemma MoveKeeps(pl: Plan, y: Sys, t: nat, g: nat, s: Seat, pc: Pc, k: nat)
    requires Inv(pl, y) && t < pl.threads && HasSeat(y.pcs[t]) && y.pcs[t].g == g && g < |y.seats|
    requires !pc.Exited? && !pc.Looked?
    requires if HasSeat(pc) then pc.g == g && AtWork(pl, pc, s) else Settled(pl, s)
    requires s == y.seats[g] || (!y.seats[g].st.Empty? && !s.st.Empty? && s.qi == y.seats[g].qi)
    requires k + One(y.seats[g].held) + One(y.pcs[t].Counted?) == y.nand + One(s.held) + One(pc.Counted?)
    requires k + One(pc.Cleared?) <= y.nand + One(y.pcs[t].Cleared?)
          || (!y.pcs[t].Cleared? && k == y.nand && pl.mode.Steal? && IssueQdOk(y.nand, pl.mode.qd))
    ensures Inv(pl, Move(y, t, g, s, pc, k))
  {
    AtSeat(pl, y, t);
    hide AtWork, Settled, ThreadAt, ThreadsOk, NandOk, Booked, SourcesOk, AnswersOk;
    Within(pl, y, Move(y, t, g, s, pc, k), t, g);
  }

  // ------------------------------------------------------------ one lemma per step

  lemma LookKeeps(pl: Plan, y: Sys, t: nat)
    requires Inv(pl, y) && t < pl.threads && Enabled(pl, y, t, Look)
    ensures Inv(pl, Apply(pl, y, t, Look))
  {
    AtThread(pl, y, t);
    var pc := Looked(y.nexts[Lane(pl, t)] < |pl.p.asks|);
    assert ThreadAt(pl, Go(y, t, pc), t) by { hide AtWork, Settled; }
    assert Go(y, t, pc) == Apply(pl, y, t, Look);
    hide Inv, ThreadAt, Enabled, Apply;
    Moved(pl, y, t, pc, Base(pl, t));
  }

  /** Seats `t` owns, while it works on none of them. */
  ghost predicate Resting(pl: Plan, y: Sys, t: nat) {
    && Base(pl, t) + pl.depth <= |y.seats|
    && forall g: nat :: Owns(pl, t, g) ==> Settled(pl, y.seats[g])
  }

  lemma AtRest(pl: Plan, y: Sys, t: nat)
    requires Inv(pl, y) && t < pl.threads && !HasSeat(y.pcs[t])
    ensures Resting(pl, y, t)
  {
    hide Settled, Booked, NandOk, AnswersOk;
    AtThread(pl, y, t);
  }

  /** The seat a decision names is in the state its action is for. */
  ghost predicate Fits(mode: Mode, st: seq<CbSt>, cov: seq<bool>, d: Act)
    requires |cov| == |st|
  {
    match d
    case Issue(i) => i < |st| && st[i].Hold? && mode.Steal?
    case Fill(i) => i < |st| && st[i].Empty?
    case Rank(i) => i < |st| && (st[i].Wait? || st[i].Ready?) && cov[i]
    case Pump(i) => mode.Steal?
    case WaitFor(i) => i < |st| && mode.Pipe2? && (st[i].Wait? || st[i].Ready?) && !cov[i]
    case Finished => true
  }

  lemma DecisionFits(pl: Plan, y: Sys, t: nat, cov: seq<bool>, more: bool)
    requires Base(pl, t) + pl.depth <= |y.seats| && |cov| == pl.depth
    ensures Fits(pl.mode, Statuses(pl, y, t), cov, Decision(pl, y, t, cov, more))
  {
    hide Statuses;
    var st := Statuses(pl, y, t);
    assert forall i :: 0 <= i < |st| && Is(Waiting, st[i], cov[i]) && cov[i] ==> Is(Scorable, st[i], cov[i]);
  }

  ghost predicate GoodPlace(pl: Plan, y: Sys, t: nat, pc: Pc) {
    HasSeat(pc) ==> Owns(pl, t, pc.g) && pc.g < |y.seats| && AtWork(pl, pc, y.seats[pc.g])
  }

  /** A resting thread may go where a fitting decision sends it. */
  lemma PlaceFits(pl: Plan, y: Sys, t: nat, cov: seq<bool>, d: Act)
    requires Resting(pl, y, t) && |cov| == pl.depth && CovOk(pl, y, t, cov)
    requires Fits(pl.mode, Statuses(pl, y, t), cov, d)
    ensures GoodPlace(pl, y, t, Target(pl, t, d))
  {
    hide Tracked, NeedOf;
    var pc := Target(pl, t, d);
    if HasSeat(pc) {
      var i: nat := pc.g - Base(pl, t);
      var s := y.seats[pc.g];
      assert Owns(pl, t, pc.g) && Settled(pl, s) && Statuses(pl, y, t)[i] == s.st;
      hide Base;
    }
  }

  /** Leaving means nothing is parked on this thread and its lane is used up. */
  lemma LeavingThread(pl: Plan, y: Sys, t: nat, cov: seq<bool>, more: bool)
    requires Resting(pl, y, t) && CovOk(pl, y, t, cov) && Decision(pl, y, t, cov, more).Finished? && pl.depth > 0
    ensures forall g: nat :: Owns(pl, t, g) ==> g < |y.seats| && y.seats[g].st.Empty?
    ensures !more
  {
    hide Tracked, NeedOf;
    var st := Statuses(pl, y, t);
    LeavingFlags(pl, y, t, cov, more);
    forall g: nat | Owns(pl, t, g) ensures g < |y.seats| && y.seats[g].st.Empty? {
      var i: nat := g - Base(pl, t);
      assert Settled(pl, y.seats[g]) && st[i] == y.seats[Base(pl, t) + i].st;
    }
    assert st[0] == y.seats[Base(pl, t)].st && Owns(pl, t, Base(pl, t));
  }

  lemma LeavingFlags(pl: Plan, y: Sys, t: nat, cov: seq<bool>, more: bool)
    requires Base(pl, t) + pl.depth <= |y.seats| && |cov| == pl.depth
    requires Decision(pl, y, t, cov, more).Finished?
    ensures var st := Statuses(pl, y, t);
      && (forall i :: 0 <= i < |st| ==> !st[i].Wait? && !(pl.mode.Steal? && st[i].Hold?) && !(st[i].Ready? && cov[i]))
      && (more ==> forall i :: 0 <= i < |st| ==> !st[i].Empty?)
  {
    var st := Statuses(pl, y, t);
    if pl.mode.Steal? { StealLeaves(st, cov, more, IssueQdOk(y.nand, pl.mode.qd)); }
    else { Pipe2Leaves(st, cov, more); }
  }

  /** What a decision comes to for the thread that takes it. */
  lemma Chosen(pl: Plan, y: Sys, t: nat, cov: seq<bool>, more: bool)
    requires Sized(pl, y) && t < pl.threads && ThreadAt(pl, y, t) && y.pcs[t] == Looked(more)
    requires Resting(pl, y, t) && |cov| == pl.depth && CovOk(pl, y, t, cov)
    ensures var pc := Target(pl, t, Decision(pl, y, t, cov, more));
      GoodPlace(pl, y, t, pc) && !pc.Looked? && !pc.Counted? && !pc.Cleared? && ThreadAt(pl, Go(y, t, pc), t)
  {
    hide AtWork, Settled, ThreadAt, Fits, GoodPlace;
    DecisionFits(pl, y, t, cov, more);
    var d := Decision(pl, y, t, cov, more);
    PlaceFits(pl, y, t, cov, d);
    if d.Finished? { LeavingThread(pl, y, t, cov, more); }
    hide Decision;
    ThreadChose(pl, y, t, Target(pl, t, d));
  }

  lemma ChooseKeeps(pl: Plan, y: Sys, t: nat, cov: seq<bool>)
    requires Inv(pl, y) && t < pl.threads && Enabled(pl, y, t, Choose(cov))
    ensures Inv(pl, Apply(pl, y, t, Choose(cov)))
  {
    AtThread(pl, y, t);
    AtRest(pl, y, t);
    hide Inv, Target, Decision, ThreadAt, AtWork, Settled, Resting;
    Chosen(pl, y, t, cov, y.pcs[t].more);
    var pc := Target(pl, t, Decision(pl, y, t, cov, y.pcs[t].more));
    assert Go(y, t, pc) == Apply(pl, y, t, Choose(cov));
    hide Enabled, Apply;
    Moved(pl, y, t, pc, Base(pl, t));
  }

  lemma ThreadChose(pl: Plan, y: Sys, t: nat, pc: Pc)
    requires Sized(pl, y) && t < pl.threads && ThreadAt(pl, y, t) && !HasSeat(y.pcs[t]) && !pc.Looked?
    requires GoodPlace(pl, y, t, pc)
    requires pc.Exited? ==> y.pcs[t].Looked? && !y.pcs[t].more && forall g: nat :: Owns(pl, t, g) ==> g < |y.seats| && y.seats[g].st.Empty?
    ensures Sized(pl, Go(y, t, pc)) && ThreadAt(pl, Go(y, t, pc), t)
  {
    hide AtWork, Settled;
    OwnsInside(pl, y, t);
  }

  lemma NandSame(pl: Plan, y: Sys, y': Sys)
    requires NandOk(pl, y) && y'.nand == y.nand && |y'.pcs| == |y.pcs|
    requires Count(HeldFlags(y'.seats)) == Count(HeldFlags(y.seats))
    requires Count(CountedFlags(y'.pcs)) == Count(CountedFlags(y.pcs))
    requires Count(ClearedFlags(y'.pcs)) == Count(ClearedFlags(y.pcs))
    ensures NandOk(pl, y')
  {}

  lemma TriedSeat(pl: Plan, s: Seat, g: nat)
    requires AtWork(pl, Trying(g), s)
    ensures AtWork(pl, Cleared(g), s) && Settled(pl, s.(st := Hold)) && !s.st.Empty?
  {
    hide NeedOf, Serial;
  }

  lemma TryKeeps(pl: Plan, y: Sys, t: nat)
    requires Inv(pl, y) && t < pl.threads && Enabled(pl, y, t, Try)
    ensures Inv(pl, Apply(pl, y, t, Try))
  {
    hide Inv, ThreadAt, AtWork, Settled;
    AtSeat(pl, y, t);
    var g := y.pcs[t].g;
    var s := y.seats[g];
    TriedSeat(pl, s, g);
    if IssueQdOk(y.nand, pl.mode.qd) {
      MoveKeeps(pl, y, t, g, s, Cleared(g), y.nand);
      assert Move(y, t, g, s, Cleared(g), y.nand) == Apply(pl, y, t, Try);
    } else {
      MoveKeeps(pl, y, t, g, s.(st := Hold), Top, y.nand);
      assert Move(y, t, g, s.(st := Hold), Top, y.nand) == Apply(pl, y, t, Try);
    }
  }

  lemma ClearedSeat(pl: Plan, s: Seat, g: nat)
    requires AtWork(pl, Cleared(g), s)
    ensures AtWork(pl, Counted(g), s)
  {
    hide NeedOf, Serial;
  }

  lemma CountInKeeps(pl: Plan, y: Sys, t: nat)
    requires Inv(pl, y) && t < pl.threads && Enabled(pl, y, t, CountIn)
    ensures Inv(pl, Apply(pl, y, t, CountIn))
  {
    hide Inv, ThreadAt, AtWork, Settled;
    AtSeat(pl, y, t);
    var g := y.pcs[t].g;
    ClearedSeat(pl, y.seats[g], g);
    MoveKeeps(pl, y, t, g, y.seats[g], Counted(g), y.nand + 1);
    assert Move(y, t, g, y.seats[g], Counted(g), y.nand + 1) == Apply(pl, y, t, CountIn);
  }

  lemma IssuedTracked(pl: Plan, s: Seat, tok: Option<nat>)
    requires Tracked(pl.p, s)
    ensures Tracked(pl.p, Issued(pl.p, s, tok)) && (NeedOf(pl.p, s.q.cand) == [] <==> s.q.cand == [])
  {
    SerialInRange(pl.p, s.qi, s.q.cand);
    NeedEmpty(pl.p, s.q.cand);
    hide NeedOf, Serial;
  }

  lemma IssuedSeat(pl: Plan, s: Seat, tok: Option<nat>, g: nat)
    requires AtWork(pl, Counted(g), s) || AtWork(pl, Sending(g), s)
    requires NeedOf(pl.p, s.q.cand) == [] ==> tok.None?
    ensures var s' := Issued(pl.p, s, tok);
      && s'.qi == s.qi && !s'.st.Empty?
      && (pl.mode.Pipe2? ==> Settled(pl, s'))
      && (pl.mode.Steal? ==> if s'.need == [] || s'.toks == [] then AtWork(pl, Backing(g), s'.(held := true)) else Settled(pl, s'.(held := true)))
  {
    IssuedTracked(pl, s, tok);
    hide NeedOf, Tracked;
    var s' := Issued(pl.p, s, tok);
    TrackedHeld(pl.p, s');
    if pl.mode.Pipe2? {
      assert Settled(pl, s');
    } else if s'.need == [] || s'.toks == [] {
      assert AtWork(pl, Backing(g), s'.(held := true));
    } else {
      assert Settled(pl, s'.(held := true));
    }
  }

  lemma TrackedHeld(p: Setup, s: Seat)
    ensures Tracked(p, s.(held := true)) == Tracked(p, s)
  {
    hide Serial;
  }

  lemma SendKeeps(pl: Plan, y: Sys, t: nat, tok: Option<nat>)
    requires Inv(pl, y) && t < pl.threads && Enabled(pl, y, t, Send(tok))
    ensures Inv(pl, Apply(pl, y, t, Send(tok)))
  {
    AtSeat(pl, y, t);
    var g := y.pcs[t].g;
    hide Inv, ThreadAt, Tracked, NeedOf;
    assert !y.seats[g].held && !y.seats[g].st.Empty?;
    hide AtWork, Settled;
    IssuedSeat(pl, y.seats[g], tok, g);
    var s := Issued(pl.p, y.seats[g], tok);
    assert !s.held;
    if pl.mode.Pipe2? {
      MoveKeeps(pl, y, t, g, s, Top, y.nand);
      assert Move(y, t, g, s, Top, y.nand) == Apply(pl, y, t, Send(tok));
    } else {
      var pc := if s.need == [] || s.toks == [] then Backing(g) else Top;
      MoveKeeps(pl, y, t, g, s.(held := true), pc, y.nand);
      assert Move(y, t, g, s.(held := true), pc, y.nand) == Apply(pl, y, t, Send(tok));
    }
  }

  lemma CountOutKeeps(pl: Plan, y: Sys, t: nat)
    requires Inv(pl, y) && t < pl.threads && Enabled(pl, y, t, CountOut)
    ensures Inv(pl, Apply(pl, y, t, CountOut))
  {
    hide Inv, ThreadAt, AtWork, Settled;
    AtSeat(pl, y, t);
    var g := y.pcs[t].g;
    BackedSeat(pl, y.seats[g], g);
    var s := y.seats[g].(held := false);
    var s' := if s.need == [] then s else s.(st := Hold);
    MoveKeeps(pl, y, t, g, s', Top, y.nand - 1);
    assert Move(y, t, g, s', Top, y.nand - 1) == Apply(pl, y, t, CountOut);
  }

  lemma BackedSeat(pl: Plan, s: Seat, g: nat)
    requires AtWork(pl, Backing(g), s)
    ensures s.held && !s.st.Empty?
    ensures var s' := s.(held := false);
      Settled(pl, if s.need == [] then s' else s'.(st := Hold))
  {
    SerialInRange(pl.p, s.qi, s.q.cand);
    NeedEmpty(pl.p, s.q.cand);
    hide NeedOf, Serial;
  }

  lemma WaitedKeeps(pl: Plan, y: Sys, t: nat, tok: seq<nat>)
    requires Inv(pl, y) && t < pl.threads && Enabled(pl, y, t, Waited(tok))
    ensures Inv(pl, Apply(pl, y, t, Waited(tok)))
  {
    AtSeat(pl, y, t);
    var g := y.pcs[t].g;
    hide Inv, ThreadAt, Tracked, NeedOf;
    TokSettled(pl, y.seats[g], tok);
    assert y.seats[g].st.Wait?;
    hide AtWork, Settled;
    var s := AddToks(y.seats[g], tok);
    MoveKeeps(pl, y, t, g, s, Top, y.nand);
    assert Move(y, t, g, s, Top, y.nand) == Apply(pl, y, t, Waited(tok));
  }

  /** What a rank attempt leaves on the seat. */
  lemma RankSeat(pl: Plan, s: Seat, src: Source)
    requires GoodPlan(pl) && Settled(pl, s) && (s.st.Wait? || s.st.Ready?) && Readable(pl.p, src) && Covering(src, s.need)
    ensures var (r, ok) := RankOnce(pl.p, s, src);
      && r == s.(q := r.q, st := r.st) && Tracked(pl.p, r) && s.need == NeedOf(pl.p, r.q.cand)
      && (ok ==> r.st.Done? && Scored(pl.p, r)) && (!ok ==> r.st == s.st && s.st.Wait?)
  {
    RankKeeps(pl.p, s, src);
    var r := RankOnce(pl.p, s, src).0;
    SameIdsSameNeed(pl.p, r.q.cand, s.q.cand);
    SerialInRange(pl.p, s.qi, s.q.cand);
    NeedEmpty(pl.p, s.q.cand);
  }

  lemma TokSettled(pl: Plan, s: Seat, tok: seq<nat>)
    requires Settled(pl, s) && s.st.Wait?
    ensures Settled(pl, AddToks(s, tok))
  {
    hide NeedOf;
  }

  /** The seat after one pass of ranking. */
  ghost function RankedSeat(pl: Plan, s: Seat, src: Source, now: bool, late: seq<nat>): (Seat, bool)
    requires GoodSetup(pl.p) && s.qi < |pl.p.asks|
  {
    var (r, ok) := if now then RankOnce(pl.p, s, src) else (s, false);
    (if ok then r else (if pl.mode.Pipe2? then AddToks(r, late) else r).(st := Wait), ok)
  }

  lemma RankedSettled(pl: Plan, s: Seat, src: Source, now: bool, late: seq<nat>, g: nat)
    requires GoodPlan(pl) && Readable(pl.p, src) && Settled(pl, s) && (s.st.Wait? || s.st.Ready?) && (s.need == [] ==> now)
    requires now ==> Covering(src, s.need)
    ensures s.qi < |pl.p.asks|
    ensures var (r, ok) := RankedSeat(pl, s, src, now, late);
      && !r.st.Empty? && r.qi == s.qi && r.held == s.held
      && if ok then AtWork(pl, Finishing(g), r) else Settled(pl, r)
  {
    hide RankOnce, NeedOf, Readable, Scored, Serial, Covering;
    if now {
      RankSeat(pl, s, src);
      RankedEither(pl, s, RankOnce(pl.p, s, src).0, RankOnce(pl.p, s, src).1, late, g);
    } else {
      RankedEither(pl, s, s, false, late, g);
    }
  }

  lemma RankedEither(pl: Plan, s: Seat, r: Seat, ok: bool, late: seq<nat>, g: nat)
    requires Settled(pl, s) && (s.st.Wait? || s.st.Ready?) && Tracked(pl.p, r)
    requires r == s.(q := r.q, st := r.st) && s.need == NeedOf(pl.p, r.q.cand)
    requires (ok ==> r.st.Done? && Scored(pl.p, r)) && (!ok ==> r.st == s.st && s.st.Wait?)
    ensures if ok then AtWork(pl, Finishing(g), r) else Settled(pl, (if pl.mode.Pipe2? then AddToks(r, late) else r).(st := Wait))
  {
    hide NeedOf, Scored;
    if !ok {
      var a := (if pl.mode.Pipe2? then AddToks(r, late) else r).(st := Wait);
      assert Tracked(pl.p, a);
    }
  }

  lemma RankingSeat(pl: Plan, s: Seat, g: nat)
    requires AtWork(pl, Ranking(g), s)
    ensures Settled(pl, s) && (s.st.Wait? || s.st.Ready?) && s.qi < |pl.p.asks| && (s.need != [] ==> s.st.Wait?)
  {
    hide NeedOf, Serial;
  }

  /** Where ranking leaves the seat and its thread. */
  ghost function RankOutcome(pl: Plan, s: Seat, src: Source, e: Ev, g: nat): (Seat, Pc)
    requires e.Rank? && GoodSetup(pl.p) && s.qi < |pl.p.asks|
  {
    if !e.again && pl.mode.Steal? then (s, Top)
    else
      var (r, ok) := RankedSeat(pl, if e.again then s else AddToks(s, e.early), src, e.now, e.late);
      (r, if ok then Finishing(g) else Top)
  }

  lemma OutcomeOk(pl: Plan, s: Seat, src: Source, e: Ev, g: nat)
    requires e.Rank? && GoodPlan(pl) && Readable(pl.p, src) && Settled(pl, s) && (s.st.Wait? || s.st.Ready?)
    requires (s.need == [] ==> e.again && e.now) && (s.need != [] ==> s.st.Wait?) && s.qi < |pl.p.asks|
    requires e.now ==> Covering(src, s.need)
    ensures var (r, pc) := RankOutcome(pl, s, src, e, g);
      && !r.st.Empty? && r.qi == s.qi && r.held == s.held && (pc == Finishing(g) || pc == Top)
      && if pc == Finishing(g) then AtWork(pl, pc, r) else Settled(pl, r)
  {
    hide AtWork, Settled, Readable, RankOnce;
    if e.again || pl.mode.Pipe2? {
      if !e.again { TokSettled(pl, s, e.early); }
      RankedSettled(pl, if e.again then s else AddToks(s, e.early), src, e.now, e.late, g);
    }
  }

  lemma RankIsMove(pl: Plan, y: Sys, t: nat, e: Ev)
    requires Sized(pl, y) && t < pl.threads && e.Rank? && Enabled(pl, y, t, e)
    ensures var g := y.pcs[t].g;
      var o := RankOutcome(pl, y.seats[g], y.sources[t], e, g);
      Apply(pl, y, t, e) == Move(y, t, g, o.0, o.1, y.nand)
  {
    hide RankOnce;
    var g := y.pcs[t].g;
    assert y.seats == y.seats[g := y.seats[g]];
  }

  lemma RankKeepsInv(pl: Plan, y: Sys, t: nat, e: Ev)
    requires Inv(pl, y) && t < pl.threads && e.Rank? && Enabled(pl, y, t, e)
    ensures Inv(pl, Apply(pl, y, t, e))
  {
    RankIsMove(pl, y, t, e);
    assert Readable(pl.p, y.sources[t]) && GoodPlan(pl);
    hide Inv, ThreadAt, AtWork, Settled, Readable, GoodPlan, Apply, RankOutcome;
    AtSeat(pl, y, t);
    var g := y.pcs[t].g;
    RankingSeat(pl, y.seats[g], g);
    OutcomeOk(pl, y.seats[g], y.sources[t], e, g);
    var o := RankOutcome(pl, y.seats[g], y.sources[t], e, g);
    MoveKeeps(pl, y, t, g, o.0, o.1, y.nand);
  }

  /** Claiming moves the thread, and hands it the query if there is one. */
  lemma ClaimThread(pl: Plan, y: Sys, y': Sys, t: nat, g: nat)
    requires Inv(pl, y) && Near(pl, y, y', t, g) && y.pcs[t] == Filling(g) && y'.nand == y.nand
    requires (y'.pcs[t] == Top && y'.seats == y.seats) || (!y'.seats[g].held && AtWork(pl, y'.pcs[t], y'.seats[g]) && y'.pcs[t] == (if pl.mode.Steal? then Trying(g) else Sending(g)))
    ensures ThreadAt(pl, y', t) && NandOk(pl, y')
  {
    AtSeat(pl, y, t);
    hide Booked, Tracked, SourcesOk, AnswersOk;
    assert Settled(pl, y.seats[g]) && !y.seats[g].held;
    hide AtWork, Settled;
    ThreadMoved(pl, y, y', t, g);
    Recount(pl, y, y', t, g);
    NandSame(pl, y, y');
  }

  lemma ClaimPast(pl: Plan, y: Sys, t: nat, g: nat, l: nat)
    requires Inv(pl, y) && t < pl.threads && y.pcs[t] == Filling(g) && l == Lane(pl, t) < |y.nexts| && y.nexts[l] >= |pl.p.asks|
    ensures Inv(pl, Go(y.(nexts := Take(y.nexts, l)), t, Top))
  {
    AtSeat(pl, y, t);
    var y' := Go(y.(nexts := Take(y.nexts, l)), t, Top);
    assert y.seats == y.seats[g := y.seats[g]];
    BookPast(|pl.p.asks|, y.seats, y.results, y.nexts, l);
    hide AtWork, Settled, ThreadAt, Booked, ThreadsOk, SourcesOk, AnswersOk, NandOk;
    ClaimThread(pl, y, y', t, g);
    assert AnswersOk(pl, y') by { hide Answer; assert AnswersOk(pl, y) == AnswersOk(pl, y'); }
    ClaimDone(pl, y, y', t, g);
  }

  lemma ClaimNew(pl: Plan, y: Sys, y': Sys, t: nat, g: nat, l: nat)
    requires Inv(pl, y) && t < pl.threads && y.pcs[t] == Filling(g) && g < |y.seats| && l == Lane(pl, t) < |y.nexts| && y.nexts[l] < |pl.p.asks|
    requires y' == Go(Scheduler.Put(y.(nexts := Take(y.nexts, l)), g, Admitted(pl.p, y.nexts[l])), t, if pl.mode.Steal? then Trying(g) else Sending(g))
    ensures Inv(pl, y')
  {
    AtSeat(pl, y, t);
    var s := Admitted(pl.p, y.nexts[l]);
    assert AtWork(pl, y'.pcs[t], s) && !s.held && s.qi == y.nexts[l] && !s.st.Empty? && y.seats[g].st.Empty? by { hide Serial, Booked, ThreadsOk, SourcesOk, AnswersOk, NandOk; }
    hide AtWork, Settled, ThreadAt, ThreadsOk, SourcesOk, NandOk, Admitted, Answer, Booked;
    BookClaim(|pl.p.asks|, y.seats, y.results, y.nexts, l, g, s);
    ClaimThread(pl, y, y', t, g);
    ClaimDone(pl, y, y', t, g);
  }

  lemma ClaimKeeps(pl: Plan, y: Sys, t: nat)
    requires Inv(pl, y) && t < pl.threads && Enabled(pl, y, t, Claim)
    ensures Inv(pl, Apply(pl, y, t, Claim))
  {
    OwnsInside(pl, y, t);
    var g, l := y.pcs[t].g, Lane(pl, t);
    hide Inv, GoodSetup, Admitted;
    if y.nexts[l] >= |pl.p.asks| {
      ClaimPast(pl, y, t, g, l);
    } else {
      ClaimNew(pl, y, Apply(pl, y, t, Claim), t, g, l);
    }
  }

  lemma ClaimDone(pl: Plan, y: Sys, y': Sys, t: nat, g: nat)
    requires Inv(pl, y) && Near(pl, y, y', t, g) && ThreadAt(pl, y', t) && NandOk(pl, y')
    requires Booked(|pl.p.asks|, y'.seats, y'.results, y'.nexts) && AnswersOk(pl, y') && y'.sources == y.sources
    ensures Inv(pl, y')
  {
    hide ThreadAt, Booked, NandOk, AnswersOk, ThreadsOk;
    ThreadsKept(pl, y, y', t, g);
  }

  lemma FinishThread(pl: Plan, y: Sys, t: nat, sorted: seq<Cand>)
    requires Inv(pl, y) && t < pl.threads && Enabled(pl, y, t, Finish(sorted))
    ensures var y' := Apply(pl, y, t, Finish(sorted));
      && Near(pl, y, y', t, y.pcs[t].g) && ThreadAt(pl, y', t) && NandOk(pl, y')
  {
    AtSeat(pl, y, t);
    hide Booked, Tracked, Scored, SortOf, Readable;
    var y' := Apply(pl, y, t, Finish(sorted));
    var g := y.pcs[t].g;
    ThreadMoved(pl, y, y', t, g);
    Recount(pl, y, y', t, g);
  }

  lemma FinishBooks(pl: Plan, y: Sys, t: nat, sorted: seq<Cand>)
    requires Inv(pl, y) && t < pl.threads && Enabled(pl, y, t, Finish(sorted))
    ensures var y' := Apply(pl, y, t, Finish(sorted));
      Booked(|pl.p.asks|, y'.seats, y'.results, y'.nexts) && AnswersOk(pl, y') && y'.sources == y.sources
  {
    assert Sized(pl, y) && y.pcs[t].g < |y.seats| && Booked(|pl.p.asks|, y.seats, y.results, y.nexts) && AnswersOk(pl, y);
    var y' := Apply(pl, y, t, Finish(sorted));
    var g, out := y.pcs[t].g, Outcome(pl.p, sorted);
    assert y'.seats == y.seats[g := EmptySeat()] && y'.results == y.results[y.seats[g].qi := out] && y'.nexts == y.nexts && y'.sources == y.sources;
    assert EmptySeat().st.Empty?;
    hide *;
    DoneSeat(pl, y, t, sorted);
    BookFinish(|pl.p.asks|, y.seats, y.results, y.nexts, g, EmptySeat(), out);
    AnswersMore(pl, y, y', y.seats[g].qi, out);
  }

  lemma AnswersMore(pl: Plan, y: Sys, y': Sys, qi: nat, out: seq<nat>)
    requires AnswersOk(pl, y) && GoodSetup(pl.p) && qi < |pl.p.asks| && Answer(pl.p, qi, out) && y'.results == y.results[qi := out]
    ensures AnswersOk(pl, y')
  {
    hide Answer;
  }

  /** The seat a thread finishes is scored, so its sorted prefix answers its query. */
  lemma DoneSeat(pl: Plan, y: Sys, t: nat, sorted: seq<Cand>)
    requires Inv(pl, y) && t < pl.threads && Enabled(pl, y, t, Finish(sorted))
    ensures var s := y.seats[y.pcs[t].g];
      !s.st.Empty? && GoodSetup(pl.p) && s.qi < |pl.p.asks| && Answer(pl.p, s.qi, Outcome(pl.p, sorted))
  {
    hide Booked, ThreadsOk, NandOk, SourcesOk, AnswersOk, Serial, Score, Answer, Outcome, Ids;
    AtSeat(pl, y, t);
    FinishAnswers(pl.p, y.seats[y.pcs[t].g], sorted);
  }

  lemma FinishKeeps(pl: Plan, y: Sys, t: nat, sorted: seq<Cand>)
    requires Inv(pl, y) && t < pl.threads && Enabled(pl, y, t, Finish(sorted))
    ensures Inv(pl, Apply(pl, y, t, Finish(sorted)))
  {
    FinishThread(pl, y, t, sorted);
    FinishBooks(pl, y, t, sorted);
    hide Inv, Apply, Enabled, ThreadAt, Booked, NandOk, AnswersOk, Near;
    ClaimDone(pl, y, Apply(pl, y, t, Finish(sorted)), t, y.pcs[t].g);
  }

  lemma SourceKeeps(pl: Plan, y: Sys, t: nat, src: Source)
    requires Inv(pl, y) && t < pl.threads && Enabled(pl, y, t, SourceMoves(src))
    ensures Inv(pl, Apply(pl, y, t, SourceMoves(src)))
  {
    hide ThreadOk, Booked, Answer, Readable;
    var y' := Apply(pl, y, t, SourceMoves(src));
    assert forall u: nat :: u < pl.threads && ThreadAt(pl, y, u) ==> ThreadAt(pl, y', u);
  }

  // ------------------------------------------------------------ runs

  /** Any step of any thread, and any change of any source that keeps its invariant, keeps the invariant. */
  lemma StepKeeps(pl: Plan, y: Sys, t: nat, e: Ev)
    requires Inv(pl, y) && t < pl.threads && Enabled(pl, y, t, e)
    ensures Inv(pl, Apply(pl, y, t, e))
  {
    hide Inv, Enabled, Apply;
    match e
    case Look => LookKeeps(pl, y, t);
    case Choose(cov) => ChooseKeeps(pl, y, t, cov);
    case Claim => ClaimKeeps(pl, y, t);
    case Try => TryKeeps(pl, y, t);
    case CountIn => CountInKeeps(pl, y, t);
    case Send(tok) => SendKeeps(pl, y, t, tok);
    case CountOut => CountOutKeeps(pl, y, t);
    case Waited(tok) => WaitedKeeps(pl, y, t, tok);
    case Rank(_, _, _, _) => RankKeepsInv(pl, y, t, e);
    case Finish(sorted) => FinishKeeps(pl, y, t, sorted);
    case SourceMoves(src) => SourceKeeps(pl, y, t, src);
  }

  lemma StartInv(pl: Plan, y: Sys)
    requires Start(pl, y)
    ensures Inv(pl, y)
  {
    StartBook(pl, y);
    StartCounts(pl, y);
    forall t: nat | t < pl.threads ensures ThreadAt(pl, y, t) { StartThread(pl, y, t); }
    hide ThreadAt, Booked, NandOk, Readable, EmptySeat;
  }

  lemma StartBook(pl: Plan, y: Sys)
    requires Start(pl, y)
    ensures Booked(|pl.p.asks|, y.seats, y.results, y.nexts)
  {
    hide *;
    AllEmpty(pl, y);
    BookStart(|pl.p.asks|, y.seats, y.nexts);
  }

  lemma AllEmpty(pl: Plan, y: Sys)
    requires Start(pl, y)
    ensures y.results == map[] && Lanes(y.nexts) && forall l :: 0 <= l < |y.nexts| ==> y.nexts[l] == l
    ensures forall g :: 0 <= g < |y.seats| ==> y.seats[g].st.Empty?
  {
    hide Readable, Base;
  }

  lemma StartCounts(pl: Plan, y: Sys)
    requires Start(pl, y)
    ensures NandOk(pl, y)
  {
    CountBound(HeldFlags(y.seats));
    CountBound(CountedFlags(y.pcs));
    CountBound(ClearedFlags(y.pcs));
  }

  lemma StartThread(pl: Plan, y: Sys, t: nat)
    requires Start(pl, y) && t < pl.threads
    ensures ThreadAt(pl, y, t)
  {
    OwnsInside(pl, y, t);
    hide Tracked, NeedOf, Readable;
  }

  /** `trace` lists who moves and how; any thread may move at any point. */
  ghost predicate Runs(pl: Plan, y: Sys, trace: seq<(nat, Ev)>, z: Sys)
    decreases |trace|
  {
    if trace == [] then z == y
    else
      var (t, e) := trace[0];
      && Sized(pl, y) && t < pl.threads && Enabled(pl, y, t, e)
      && Runs(pl, Apply(pl, y, t, e), trace[1..], z)
  }

  lemma {:induction false} RunKeeps(pl: Plan, y: Sys, trace: seq<(nat, Ev)>, z: Sys)
    requires Inv(pl, y) && Runs(pl, y, trace, z)
    ensures Inv(pl, z)
    decreases |trace|
  {
    hide Inv, Enabled, Apply, Sized;
    if trace != [] {
      var (t, e) := trace[0];
      StepKeeps(pl, y, t, e);
      RunKeeps(pl, Apply(pl, y, t, e), trace[1..], z);
    }
  }

  lemma RunsTwo(pl: Plan, a: Sys, t: nat, e1: Ev, b: Sys, e2: Ev, c: Sys)
    requires t < pl.threads && Sized(pl, a) && Sized(pl, b)
    requires Enabled(pl, a, t, e1) && b == Apply(pl, a, t, e1)
    requires Enabled(pl, b, t, e2) && c == Apply(pl, b, t, e2)
    ensures Runs(pl, a, [(t, e1), (t, e2)], c)
  {
    hide Enabled, Apply, Sized;
    var s := [(t, e1), (t, e2)];
    assert s[1..] == [(t, e2)] && [(t, e2)][1..] == [];
    assert Runs(pl, c, [], c);
    assert Runs(pl, b, [(t, e2)], c);
  }

  lemma {:induction false} RunsJoin(pl: Plan, a: Sys, p: seq<(nat, Ev)>, b: Sys, q: seq<(nat, Ev)>, c: Sys)
    requires Runs(pl, a, p, b) && Runs(pl, b, q, c)
    ensures Runs(pl, a, p + q, c)
    decreases |p|
  {
    hide Enabled, Apply, Sized;
    if p == [] {
      assert p + q == q;
    } else {
      var (t, e) := p[0];
      RunsJoin(pl, Apply(pl, a, t, e), p[1..], b, q, c);
      assert (p + q)[1..] == p[1..] + q;
    }
  }

  /**
   Scheduling changes timing, never answers: whatever the interleaving of
   threads, changes of windows or staged fills, refused issues and failed rank
   attempts, a query that has an answer has a k-prefix, in full-precision order,
   of exactly the candidates the serial beam computes for it.
   */
  lemma SchedulingInvariance(pl: Plan, y: Sys, trace: seq<(nat, Ev)>, z: Sys, qi: nat)
    requires Start(pl, y) && Runs(pl, y, trace, z) && qi in z.results
    ensures GoodSetup(pl.p) && qi < |pl.p.asks| && Answer(pl.p, qi, z.results[qi])
  {
    StartInv(pl, y);
    RunKeeps(pl, y, trace, z);
  }

  /** At every point of every run each query is in exactly one place. */
  lemma EveryQueryOnce(pl: Plan, y: Sys, trace: seq<(nat, Ev)>, z: Sys, qi: nat)
    requires Start(pl, y) && Runs(pl, y, trace, z) && qi < |pl.p.asks|
    ensures Unclaimed(z.nexts, qi) || qi in z.results || Seated(z.seats, qi)
    ensures !(Unclaimed(z.nexts, qi) && qi in z.results) && !(Unclaimed(z.nexts, qi) && Seated(z.seats, qi))
    ensures !(qi in z.results && Seated(z.seats, qi))
    ensures forall g: nat, h: nat :: On(z.seats, g, qi) && On(z.seats, h, qi) ==> g == h
  {
    StartInv(pl, y);
    RunKeeps(pl, y, trace, z);
    ExactlyOnce(|pl.p.asks|, z.seats, z.results, z.nexts, qi);
  }

  /** The issue counter is exact, and overshoots the depth by at most the other threads. */
  lemma DepthBound(pl: Plan, y: Sys, trace: seq<(nat, Ev)>, z: Sys)
    requires Start(pl, y) && Runs(pl, y, trace, z)
    ensures z.nand == Count(HeldFlags(z.seats)) + Count(CountedFlags(z.pcs))
    ensures pl.mode.Steal? && pl.mode.qd > 0 ==> z.nand <= pl.mode.qd + pl.threads - 1
  {
    StartInv(pl, y);
    RunKeeps(pl, y, trace, z);
    CountBound(ClearedFlags(z.pcs));
  }

  /** A thread that has left has nothing on its seats and no query left to admit. */
  lemma ThreadLeft(pl: Plan, y: Sys, trace: seq<(nat, Ev)>, z: Sys, t: nat)
    requires Start(pl, y) && Runs(pl, y, trace, z) && t < |z.pcs| && z.pcs[t].Exited?
    ensures forall g: nat :: Owns(pl, t, g) ==> g < |z.seats| && z.seats[g] == EmptySeat()
    ensures Lane(pl, t) < |z.nexts| && z.nexts[Lane(pl, t)] >= |pl.p.asks|
  {
    StartInv(pl, y);
    RunKeeps(pl, y, trace, z);
    OwnsInside(pl, z, t);
    assert ThreadAt(pl, z, t);
  }

  /** When every thread has left, every query has its answer and the issue counter is back at zero. */
  lemma AllLeft(pl: Plan, y: Sys, trace: seq<(nat, Ev)>, z: Sys)
    requires Start(pl, y) && Runs(pl, y, trace, z) && forall t :: 0 <= t < |z.pcs| ==> z.pcs[t].Exited?
    ensures forall qi: nat :: qi in z.results <==> qi < |pl.p.asks|
    ensures forall qi: nat :: qi in z.results ==> GoodSetup(pl.p) && qi < |pl.p.asks| && Answer(pl.p, qi, z.results[qi])
    ensures z.nand == 0
  {
    StartInv(pl, y);
    RunKeeps(pl, y, trace, z);
    hide ThreadsOk, Booked, Answer, Runs, Start, SourcesOk;
    forall g: nat | g < |z.seats| ensures z.seats[g] == EmptySeat() {
      var t := OwnerOf(pl, z, g);
      ThreadLeft(pl, y, trace, z, t);
    }
    forall l | 0 <= l < |z.nexts| ensures z.nexts[l] >= |pl.p.asks| {
      ThreadLeft(pl, y, trace, z, l);
    }
    AllAnswered(|pl.p.asks|, z.seats, z.results, z.nexts);
    NoneCounted(pl, z);
  }

  lemma NoneCounted(pl: Plan, y: Sys)
    requires NandOk(pl, y) && (forall g :: 0 <= g < |y.seats| ==> y.seats[g] == EmptySeat()) && forall t :: 0 <= t < |y.pcs| ==> y.pcs[t].Exited?
    ensures y.nand == 0
  {
    CountBound(HeldFlags(y.seats));
    CountBound(CountedFlags(y.pcs));
  }

  /** The counter is never taken below zero, and every place a thread stands at offers a next step. */
  lemma NeverStuck(pl: Plan, y: Sys, trace: seq<(nat, Ev)>, z: Sys, t: nat)
    requires Start(pl, y) && Runs(pl, y, trace, z) && t < |z.pcs| && !z.pcs[t].Exited?
    ensures Sized(pl, z) && t < pl.threads
    ensures HasSeat(z.pcs[t]) ==> z.pcs[t].g < |z.seats| && (z.seats[z.pcs[t].g].held ==> z.nand > 0)
    ensures exists e: Ev :: !e.SourceMoves? && Enabled(pl, z, t, e)
  {
    StartInv(pl, y);
    RunKeeps(pl, y, trace, z);
    NextStep(pl, z, t);
  }

  lemma NextStep(pl: Plan, y: Sys, t: nat)
    requires Inv(pl, y) && t < pl.threads && !y.pcs[t].Exited?
    ensures HasSeat(y.pcs[t]) ==> y.pcs[t].g < |y.seats| && (y.seats[y.pcs[t].g].held ==> y.nand > 0)
    ensures exists e: Ev :: !e.SourceMoves? && Enabled(pl, y, t, e)
  {
    AtThread(pl, y, t);
    hide Booked, ThreadsOk, SourcesOk, AnswersOk, Tracked, Scored, NeedOf, RankOnce;
    if HasSeat(y.pcs[t]) { SeatStep(pl, y, t); }
    else if y.pcs[t].Top? { assert Enabled(pl, y, t, Look); }
    else { assert Enabled(pl, y, t, Choose(seq(pl.depth, _ => true))); }
  }

  lemma HeldCounts(pl: Plan, y: Sys, g: nat)
    requires NandOk(pl, y) && g < |y.seats| && y.seats[g].held
    ensures y.nand > 0
  {
    CountBound(HeldFlags(y.seats));
    assert HeldFlags(y.seats)[g];
  }

  /** What the invariant says of the seat at hand, as the steps need it. */
  lemma SeatFacts(pl: Plan, pc: Pc, s: Seat)
    requires HasSeat(pc) && AtWork(pl, pc, s)
    ensures pc.Ranking? || pc.Finishing? ==> s.qi < |pl.p.asks|
    ensures pc.Backing? ==> s.held
    ensures (pc.Trying? || pc.Counted? ==> pl.mode.Steal?) && (pc.Sending? ==> pl.mode.Pipe2?)
  {
    hide NeedOf, Scored;
  }

  lemma SeatStep(pl: Plan, y: Sys, t: nat)
    requires Inv(pl, y) && t < pl.threads && HasSeat(y.pcs[t])
    ensures y.pcs[t].g < |y.seats| && (y.seats[y.pcs[t].g].held ==> y.nand > 0)
    ensures exists e: Ev :: !e.SourceMoves? && Enabled(pl, y, t, e)
  {
    AtSeat(pl, y, t);
    var g := y.pcs[t].g;
    hide AtWork, ThreadAt, Booked, ThreadsOk, SourcesOk, AnswersOk;
    if y.seats[g].held { HeldCounts(pl, y, g); }
    SeatFacts(pl, y.pcs[t], y.seats[g]);
    hide Inv, Enabled;
    var sorted := SortedCopy(y.seats[g].q.cand);
    Offers(pl, y, t, sorted);
    var e := NextEvent(y.pcs[t], y.seats[g].need == [], sorted);
    assert Enabled(pl, y, t, e);
  }

  lemma Offers(pl: Plan, y: Sys, t: nat, sorted: seq<Cand>)
    requires Sized(pl, y) && t < pl.threads && HasSeat(y.pcs[t]) && y.pcs[t].g < |y.seats|
    requires y.seats[y.pcs[t].g].held ==> y.nand > 0
    requires SortOf(y.seats[y.pcs[t].g].q.cand, sorted)
    requires y.pcs[t].Ranking? || y.pcs[t].Finishing? ==> y.seats[y.pcs[t].g].qi < |pl.p.asks|
    requires y.pcs[t].Backing? ==> y.seats[y.pcs[t].g].held
    requires (y.pcs[t].Trying? || y.pcs[t].Counted? ==> pl.mode.Steal?) && (y.pcs[t].Sending? ==> pl.mode.Pipe2?)
    ensures Enabled(pl, y, t, NextEvent(y.pcs[t], y.seats[y.pcs[t].g].need == [], sorted))
  {
    hide SortOf, NeedOf, GoodSetup;
  }

  function NextEvent(pc: Pc, free: bool, sorted: seq<Cand>): (e: Ev)
    requires HasSeat(pc)
    ensures !e.SourceMoves?
  {
    match pc
    case Filling(_) => Claim
    case Trying(_) => Try
    case Cleared(_) => CountIn
    case Counted(_) => Send(None)
    case Sending(_) => Send(None)
    case Backing(_) => CountOut
    case Blocked(_) => Waited([])
    case Ranking(_) => Ev.Rank(free, free, [], [])
    case Finishing(_) => Finish(sorted)
  }

  lemma {:induction false} SortedCopy(cand: seq<Cand>) returns (r: seq<Cand>)
    ensures SortOf(cand, r)
  {
    if cand == [] { r := []; } else {
      var init := SortedCopy(cand[..|cand| - 1]);
      r := Query.Put(init, cand[|cand| - 1]);
      assert cand == cand[..|cand| - 1] + [cand[|cand| - 1]];
    }
  }
}
