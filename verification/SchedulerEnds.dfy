/**
 The per-thread schedulers can always come to an end: from every state of every
 run some run goes on until every thread has left and every query has its
 answer, exactly when every query's candidates can be read.
 */
module SchedulerEnds {
  import opened Common
  import opened Counting
  import opened ContBatch
  import opened BeamSpec
  import opened Query
  import opened Seats
  import opened Ledger
  import opened Scheduler
  import opened SchedulerProofs

  // ------------------------------------------------------------ back to the top

  /** How far a thread is from the top of its loop, at most. */
  function Steps(pc: Pc): nat {
    match pc
    case Top => 0
    case Exited => 0
    case Looked(_) => 9
    case Filling(_) => 8
    case Trying(_) => 7
    case Cleared(_) => 6
    case Counted(_) => 5
    case Sending(_) => 5
    case Backing(_) => 4
    case Blocked(_) => 4
    case Ranking(_) => 4
    case Finishing(_) => 3
  }

  predicate Idle(pc: Pc) {
    pc.Top? || pc.Exited?
  }

  /** Only thread `t` has moved, and no source has. */
  ghost predicate OnlyThread(y: Sys, z: Sys, t: nat) {
    t < |y.pcs| == |z.pcs| && z.pcs == y.pcs[t := z.pcs[t]] && z.sources == y.sources
  }

  lemma StepDown(pl: Plan, y: Sys, t: nat, e: Ev)
    requires Sized(pl, y) && t < pl.threads && !Idle(y.pcs[t]) && !e.SourceMoves? && Enabled(pl, y, t, e)
    ensures var z := Apply(pl, y, t, e); OnlyThread(y, z, t) && Steps(z.pcs[t]) < Steps(y.pcs[t])
  {
    hide Admitted, Issued, Outcome, RankOnce, NeedOf, GoodSetup, StealDecide, Pipe2Decide;
  }

  lemma RunsCons(pl: Plan, y: Sys, t: nat, e: Ev, y1: Sys, rest: seq<(nat, Ev)>, z: Sys)
    requires Sized(pl, y) && t < pl.threads && Enabled(pl, y, t, e) && y1 == Apply(pl, y, t, e) && Runs(pl, y1, rest, z)
    ensures Runs(pl, y, [(t, e)] + rest, z)
  {
    hide Enabled, Apply, Sized;
    var s := [(t, e)] + rest;
    assert s[0] == (t, e) && s[1..] == rest;
  }

  lemma NoSteps(pl: Plan, y: Sys)
    ensures Runs(pl, y, [], y)
  {}

  lemma InvSized(pl: Plan, y: Sys)
    requires Inv(pl, y)
    ensures Sized(pl, y) && GoodSetup(pl.p) && |y.pcs| == |y.sources| == pl.threads && pl.depth > 0
  {}

  /** Every thread on its own gets back to the top, or has left. */
  lemma {:induction false} ToTop(pl: Plan, y: Sys, t: nat) returns (trace: seq<(nat, Ev)>, z: Sys)
    requires Inv(pl, y) && t < pl.threads
    ensures Runs(pl, y, trace, z) && Inv(pl, z) && OnlyThread(y, z, t) && Idle(z.pcs[t])
    decreases if t < |y.pcs| then Steps(y.pcs[t]) else 0
  {
    InvSized(pl, y);
    hide *;
    if Idle(y.pcs[t]) {
      NoSteps(pl, y);
      SameThread(y, t);
      trace, z := [], y;
    } else {
      NextStep(pl, y, t) by { IdleNot(y.pcs[t]); }
      var e: Ev :| !e.SourceMoves? && Enabled(pl, y, t, e);
      StepKeeps(pl, y, t, e);
      StepDown(pl, y, t, e);
      var y1 := Apply(pl, y, t, e);
      InvSized(pl, y1);
      var rest;
      rest, z := ToTop(pl, y1, t);
      RunsCons(pl, y, t, e, y1, rest, z);
      ThreadTwice(y, y1, z, t);
      trace := [(t, e)] + rest;
    }
  }

  lemma IdleNot(pc: Pc)
    ensures !Idle(pc) ==> !pc.Exited?
  {}

  lemma SameThread(y: Sys, t: nat)
    requires t < |y.pcs|
    ensures OnlyThread(y, y, t)
  {}

  lemma ThreadTwice(x: Sys, y: Sys, z: Sys, t: nat)
    requires OnlyThread(x, y, t) && OnlyThread(y, z, t)
    ensures OnlyThread(x, z, t)
  {}

  /** Every thread is at the top of its loop, or has left. */
  ghost predicate Calm(pl: Plan, y: Sys) {
    Inv(pl, y) && CalmTo(y, |y.pcs|)
  }

  ghost predicate CalmTo(y: Sys, n: nat) {
    n <= |y.pcs| && forall t :: 0 <= t < n ==> Idle(y.pcs[t])
  }

  lemma {:induction false} AllToTop(pl: Plan, y: Sys, n: nat) returns (trace: seq<(nat, Ev)>, z: Sys)
    requires Inv(pl, y) && n <= pl.threads && CalmTo(y, n)
    ensures Runs(pl, y, trace, z) && Calm(pl, z) && z.sources == y.sources
    decreases pl.threads - n
  {
    InvSized(pl, y);
    if n == pl.threads {
      NoSteps(pl, y);
      trace, z := [], y;
    } else {
      hide Inv, Runs;
      var first, y1 := ToTop(pl, y, n);
      var rest;
      rest, z := AllToTop(pl, y1, n + 1);
      RunsJoin(pl, y, first, y1, rest, z);
      trace := first + rest;
    }
  }

  // ------------------------------------------------------------ what gets less

  function Unanswered(n: nat, results: map<nat, seq<nat>>): (r: seq<bool>) {
    seq(n, qi => qi !in results)
  }

  function Empties(seats: seq<Seat>): (r: seq<bool>) {
    seq(|seats|, g requires 0 <= g < |seats| => seats[g].st.Empty?)
  }

  function OnHold(seats: seq<Seat>): (r: seq<bool>) {
    seq(|seats|, g requires 0 <= g < |seats| => seats[g].st.Hold?)
  }

  function Present(pcs: seq<Pc>): (r: seq<bool>) {
    seq(|pcs|, t requires 0 <= t < |pcs| => !pcs[t].Exited?)
  }

  /** Queries without an answer, then empty seats, then seats on hold, then threads still there. */
  ghost predicate Nearer(pl: Plan, y: Sys, z: Sys) {
    var n := |pl.p.asks|;
    var a, a' := Count(Unanswered(n, y.results)), Count(Unanswered(n, z.results));
    var b, b' := Count(Empties(y.seats)), Count(Empties(z.seats));
    var c, c' := Count(OnHold(y.seats)), Count(OnHold(z.seats));
    a' < a || (a' == a && (b' < b || (b' == b && (c' < c || (c' == c && Count(Present(z.pcs)) < Count(Present(y.pcs)))))))
  }

  lemma AnsweredNearer(pl: Plan, y: Sys, z: Sys, qi: nat, out: seq<nat>)
    requires qi < |pl.p.asks| && qi !in y.results && z.results == y.results[qi := out]
    ensures Nearer(pl, y, z)
  {
    var n := |pl.p.asks|;
    assert Unanswered(n, z.results) == Unanswered(n, y.results)[qi := false];
    CountUpdate(Unanswered(n, y.results), qi, false);
  }

  lemma SeatedNearer(pl: Plan, y: Sys, z: Sys, g: nat)
    requires z.results == y.results && g < |y.seats| == |z.seats| && z.seats == y.seats[g := z.seats[g]]
    requires y.seats[g].st.Empty? && !z.seats[g].st.Empty?
    ensures Nearer(pl, y, z)
  {
    assert Empties(z.seats) == Empties(y.seats)[g := false];
    CountUpdate(Empties(y.seats), g, false);
  }

  lemma IssuedNearer(pl: Plan, y: Sys, z: Sys, g: nat)
    requires z.results == y.results && g < |y.seats| == |z.seats| && z.seats == y.seats[g := z.seats[g]]
    requires y.seats[g].st.Hold? && !z.seats[g].st.Empty? && !z.seats[g].st.Hold?
    ensures Nearer(pl, y, z)
  {
    assert Empties(z.seats) == Empties(y.seats);
    assert OnHold(z.seats) == OnHold(y.seats)[g := false];
    CountUpdate(OnHold(y.seats), g, false);
  }

  lemma LeftNearer(pl: Plan, y: Sys, z: Sys, t: nat)
    requires t < |y.pcs| && !y.pcs[t].Exited? && z == Go(y, t, Exited)
    ensures Nearer(pl, y, z)
  {
    assert Present(z.pcs) == Present(y.pcs)[t := false];
    CountUpdate(Present(y.pcs), t, false);
  }

  // ------------------------------------------------------------ what a thread decides

  /** With every seat covered a pump is chosen only with nothing to rank and no room to issue. */
  lemma PumpMeansFull(st: seq<CbSt>, cov: seq<bool>, more: bool, qdOk: bool)
    requires |cov| == |st| && (forall i :: 0 <= i < |cov| ==> cov[i])
    ensures StealDecide(st, cov, more, qdOk).Pump? ==> !qdOk && forall i :: 0 <= i < |st| ==> !st[i].Wait? && !st[i].Ready?
    ensures StealDecide(st, cov, more, qdOk).Fill? ==> more
    ensures StealDecide(st, cov, more, qdOk).Issue? ==> qdOk
    ensures !StealDecide(st, cov, more, qdOk).WaitFor?
  {
    var hold, parked := First(Held, st, cov), First(Parked, st, cov);
    assert First(Scorable, st, cov).None? ==> forall i :: 0 <= i < |st| ==> !Is(Scorable, st[i], cov[i]);
    assert hold.None? && parked.Some? && First(Scorable, st, cov).None? ==> Is(Parked, st[parked.value], cov[parked.value]) && !Is(Held, st[parked.value], cov[parked.value]);
  }

  lemma NeverWaits(st: seq<CbSt>, cov: seq<bool>, more: bool)
    requires |cov| == |st| && (forall i :: 0 <= i < |cov| ==> cov[i])
    ensures var d := Pipe2Decide(st, cov, more); !d.WaitFor? && !d.Pump? && !d.Issue? && (d.Fill? ==> more)
  {
    var waiting := First(Waiting, st, cov);
    assert waiting.Some? ==> Is(Waiting, st[waiting.value], cov[waiting.value]) && Is(Scorable, st[waiting.value], cov[waiting.value]);
    assert First(Scorable, st, cov).None? ==> forall i :: 0 <= i < |st| ==> !Is(Scorable, st[i], cov[i]);
  }

  /** Some seat of the thread waits to be ranked. */
  ghost predicate HasWaiting(pl: Plan, y: Sys, t: nat) {
    exists g: nat :: Owns(pl, t, g) && g < |y.seats| && y.seats[g].st.Wait?
  }

  function AllCovered(pl: Plan): (r: seq<bool>)
    ensures |r| == pl.depth && forall i :: 0 <= i < |r| ==> r[i]
  {
    seq(pl.depth, _ => true)
  }

  predicate More(pl: Plan, y: Sys, t: nat) {
    Lane(pl, t) < |y.nexts| && y.nexts[Lane(pl, t)] < |pl.p.asks|
  }

  /** What a thread does next when nothing is counted, or it has a seat to rank. */
  lemma DecidesWell(pl: Plan, y: Sys, t: nat)
    requires Base(pl, t) + pl.depth <= |y.seats| && (y.nand == 0 || HasWaiting(pl, y, t))
    ensures var d := Decision(pl, y, t, AllCovered(pl), More(pl, y, t));
      match d
      case Fill(i) => i < pl.depth && y.seats[Base(pl, t) + i].st.Empty? && More(pl, y, t)
      case Issue(i) => i < pl.depth && y.seats[Base(pl, t) + i].st.Hold? && pl.mode.Steal? && IssueQdOk(y.nand, pl.mode.qd)
      case Rank(i) => i < pl.depth && (y.seats[Base(pl, t) + i].st.Wait? || y.seats[Base(pl, t) + i].st.Ready?)
      case Finished => true
      case _ => false
  {
    var st, cov, more := Statuses(pl, y, t), AllCovered(pl), More(pl, y, t);
    DecisionFits(pl, y, t, cov, more);
    if pl.mode.Steal? {
      PumpMeansFull(st, cov, more, IssueQdOk(y.nand, pl.mode.qd));
      if HasWaiting(pl, y, t) {
        var g: nat :| Owns(pl, t, g) && g < |y.seats| && y.seats[g].st.Wait?;
        assert st[g - Base(pl, t)] == y.seats[g].st;
      }
    } else {
      NeverWaits(st, cov, more);
    }
    hide StealDecide, Pipe2Decide;
  }

  /** Look and choose, every seat covered. */
  lemma PickUp(pl: Plan, y: Sys, t: nat) returns (trace: seq<(nat, Ev)>, d: ContBatch.Act)
    requires Calm(pl, y) && t < pl.threads && y.pcs[t].Top?
    ensures Base(pl, t) + pl.depth <= |y.seats| && Sized(pl, y) && d == Decision(pl, y, t, AllCovered(pl), More(pl, y, t))
    ensures Runs(pl, y, trace, Go(y, t, Target(pl, t, d))) && Inv(pl, Go(y, t, Target(pl, t, d)))
  {
    OwnsInside(pl, y, t);
    var cov, more := AllCovered(pl), More(pl, y, t);
    var y1 := Go(y, t, Looked(more));
    assert y1 == Apply(pl, y, t, Look);
    StepKeeps(pl, y, t, Look);
    hide Inv, StealDecide, Pipe2Decide;
    InvSized(pl, y1);
    d := Decision(pl, y, t, cov, more);
    SameDecision(pl, y, y1, t, cov, more);
    assert Enabled(pl, y1, t, Choose(cov));
    StepKeeps(pl, y1, t, Choose(cov));
    var z := Go(y, t, Target(pl, t, d));
    assert z == Apply(pl, y1, t, Choose(cov));
    hide Enabled, Apply;
    RunsTwo(pl, y, t, Look, y1, Choose(cov), z);
    trace := [(t, Look), (t, Choose(cov))];
  }

  lemma SameDecision(pl: Plan, y: Sys, y1: Sys, t: nat, cov: seq<bool>, more: bool)
    requires Base(pl, t) + pl.depth <= |y.seats| && |cov| == pl.depth && y1.seats == y.seats && y1.nand == y.nand
    ensures Decision(pl, y1, t, cov, more) == Decision(pl, y, t, cov, more)
  {
    assert Statuses(pl, y1, t) == Statuses(pl, y, t);
  }

  // ------------------------------------------------------------ a seat filled

  /** On the way from a claim or a held seat back to the top. */
  predicate OnTheWay(pc: Pc, g: nat) {
    (pc.Trying? || pc.Cleared? || pc.Counted? || pc.Sending? || pc.Backing?) && pc.g == g
  }

  /** No answer has come in, and only seat `g` has changed, which has a query. */
  ghost predicate OnlySeat(y: Sys, z: Sys, g: nat) {
    z.results == y.results && g < |y.seats| == |z.seats| && z.seats == y.seats[g := z.seats[g]] && !z.seats[g].st.Empty?
  }

  lemma QuietStep(pl: Plan, y: Sys, t: nat, e: Ev, g: nat)
    requires Sized(pl, y) && t < pl.threads && OnTheWay(y.pcs[t], g) && !e.SourceMoves? && Enabled(pl, y, t, e)
    requires g < |y.seats| && !y.seats[g].st.Empty?
    ensures var z := Apply(pl, y, t, e); OnlySeat(y, z, g) && |z.pcs| == |y.pcs| && (z.pcs[t].Top? || OnTheWay(z.pcs[t], g))
  {
    hide Admitted, Outcome, RankOnce, NeedOf, GoodSetup;
    assert y.seats == y.seats[g := y.seats[g]];
  }

  lemma {:induction false} QuietToTop(pl: Plan, y: Sys, t: nat, g: nat) returns (trace: seq<(nat, Ev)>, z: Sys)
    requires Inv(pl, y) && t < |y.pcs| && g < |y.seats| && !y.seats[g].st.Empty? && (y.pcs[t].Top? || OnTheWay(y.pcs[t], g))
    ensures Runs(pl, y, trace, z) && Inv(pl, z) && OnlyThread(y, z, t) && OnlySeat(y, z, g) && z.pcs[t].Top?
    decreases if t < |y.pcs| then Steps(y.pcs[t]) else 0
  {
    InvSized(pl, y);
    if y.pcs[t].Top? {
      NoSteps(pl, y);
      SameThread(y, t);
      assert y.seats == y.seats[g := y.seats[g]];
      trace, z := [], y;
    } else {
      WayNotIdle(y.pcs[t], g);
      hide *;
      NextStep(pl, y, t);
      var e: Ev :| !e.SourceMoves? && Enabled(pl, y, t, e);
      StepKeeps(pl, y, t, e);
      StepDown(pl, y, t, e);
      QuietStep(pl, y, t, e, g);
      var y1 := Apply(pl, y, t, e);
      InvSized(pl, y1);
      SeatHeldOn(y, y1, g);
      var rest;
      rest, z := QuietToTop(pl, y1, t, g);
      RunsCons(pl, y, t, e, y1, rest, z);
      ThreadTwice(y, y1, z, t);
      SeatTwice(y, y1, z, g);
      trace := [(t, e)] + rest;
    }
  }

  lemma WayNotIdle(pc: Pc, g: nat)
    requires OnTheWay(pc, g)
    ensures !Idle(pc) && !pc.Exited?
  {}

  lemma SeatHeldOn(y: Sys, z: Sys, g: nat)
    requires OnlySeat(y, z, g)
    ensures g < |z.seats| && !z.seats[g].st.Empty?
  {}

  lemma SeatTwice(x: Sys, y: Sys, z: Sys, g: nat)
    requires OnlySeat(x, y, g) && OnlySeat(y, z, g)
    ensures OnlySeat(x, z, g)
  {}

  /** One thread back at the top leaves a calm state calm. */
  lemma StillCalm(pl: Plan, y: Sys, z: Sys, t: nat)
    requires Calm(pl, y) && Inv(pl, z) && OnlyThread(y, z, t) && Idle(z.pcs[t])
    ensures Calm(pl, z)
  {
    hide Inv;
  }

  lemma FillRound(pl: Plan, y: Sys, t: nat, g: nat) returns (trace: seq<(nat, Ev)>, z: Sys)
    requires Calm(pl, y) && t < pl.threads && y.pcs[t].Top? && Inv(pl, Go(y, t, Filling(g)))
    requires g < |y.seats| && y.seats[g].st.Empty? && More(pl, y, t)
    ensures Runs(pl, Go(y, t, Filling(g)), trace, z) && Calm(pl, z) && z.sources == y.sources && Nearer(pl, y, z)
  {
    var y2 := Go(y, t, Filling(g));
    PlaceMoved(y, t, Filling(g));
    hide *;
    assert More(pl, y2, t) by { SameMore(pl, y, y2, t); }
    var y3 := ClaimStep(pl, y2, t, g);
    StepKeeps(pl, y2, t, Claim);
    InvSized(pl, y3);
    SeatHeldOn(y2, y3, g);
    var rest;
    rest, z := QuietToTop(pl, y3, t, g);
    RunsCons(pl, y2, t, Claim, y3, rest, z);
    trace := [(t, Claim)] + rest;
    ThreadTwice(y, y2, y3, t);
    ThreadTwice(y, y3, z, t);
    SeatTwice(y2, y3, z, g);
    ThreadSources(y, z, t);
    TopIdle(z.pcs[t]);
    StillCalm(pl, y, z, t);
    SeatFilled(pl, y, y2, z, g);
  }

  lemma SameMore(pl: Plan, y: Sys, z: Sys, t: nat)
    requires z.nexts == y.nexts
    ensures More(pl, z, t) == More(pl, y, t)
  {}

  lemma PlaceMoved(y: Sys, t: nat, pc: Pc)
    requires t < |y.pcs|
    ensures var z := Go(y, t, pc);
      OnlyThread(y, z, t) && z.seats == y.seats && z.results == y.results && z.nexts == y.nexts && z.nand == y.nand && z.pcs[t] == pc && |z.pcs| == |y.pcs|
  {}

  lemma ThreadSources(y: Sys, z: Sys, t: nat)
    requires OnlyThread(y, z, t)
    ensures z.sources == y.sources && t < |z.pcs| == |y.pcs|
  {}

  lemma TopIdle(pc: Pc)
    requires pc.Top?
    ensures Idle(pc)
  {}

  lemma SeatFilled(pl: Plan, y: Sys, y2: Sys, z: Sys, g: nat)
    requires OnlySeat(y2, z, g) && y2.seats == y.seats && y2.results == y.results && g < |y.seats| && y.seats[g].st.Empty?
    ensures Nearer(pl, y, z)
  {
    hide Nearer;
    SeatedNearer(pl, y, z, g);
  }

  lemma ClaimStep(pl: Plan, y: Sys, t: nat, g: nat) returns (z: Sys)
    requires Inv(pl, y) && t < |y.pcs| && y.pcs[t] == Filling(g) && g < |y.seats| && More(pl, y, t)
    ensures Sized(pl, y) && t < pl.threads && Enabled(pl, y, t, Claim) && z == Apply(pl, y, t, Claim)
    ensures OnlyThread(y, z, t) && OnlySeat(y, z, g) && t < |z.pcs| && OnTheWay(z.pcs[t], g)
  {
    InvSized(pl, y);
    hide Inv, GoodSetup, Serial;
    z := Apply(pl, y, t, Claim);
  }

  // ------------------------------------------------------------ a seat issued

  lemma IssueRound(pl: Plan, y: Sys, t: nat, g: nat) returns (trace: seq<(nat, Ev)>, z: Sys)
    requires Calm(pl, y) && t < pl.threads && y.pcs[t].Top? && Inv(pl, Go(y, t, Trying(g)))
    requires g < |y.seats| && y.seats[g].st.Hold? && pl.mode.Steal? && IssueQdOk(y.nand, pl.mode.qd)
    ensures Runs(pl, Go(y, t, Trying(g)), trace, z) && Calm(pl, z) && z.sources == y.sources && Nearer(pl, y, z)
  {
    var y2 := Go(y, t, Trying(g));
    PlaceMoved(y, t, Trying(g));
    hide *;
    var first, y4 := PassTest(pl, y2, t, g);
    CountedIn(y2, y4, t, g);
    var tok := if NeedOf(pl.p, y.seats[g].q.cand) == [] then None else Some(0);
    var rest;
    rest, z := SendBack(pl, y4, t, g, tok);
    RunsJoin(pl, y2, first, y4, rest, z);
    trace := first + rest;
    ThreadTwice(y, y2, y4, t);
    ThreadTwice(y, y4, z, t);
    ThreadSources(y, z, t);
    TopIdle(z.pcs[t]);
    StillCalm(pl, y, z, t);
    SeatIssued(pl, y, y4, z, g);
  }

  lemma CountedIn(y: Sys, z: Sys, t: nat, g: nat)
    requires t < |y.pcs| && z == Go(y, t, Counted(g)).(nand := y.nand + 1)
    ensures OnlyThread(y, z, t) && z.seats == y.seats && z.results == y.results && z.nand > 0 && |z.pcs| == |y.pcs| && z.pcs[t] == Counted(g)
  {}

  lemma SeatIssued(pl: Plan, y: Sys, y4: Sys, z: Sys, g: nat)
    requires OnlySeat(y4, z, g) && y4.seats == y.seats && y4.results == y.results && g < |y.seats| && y.seats[g].st.Hold?
    requires g < |z.seats| && !z.seats[g].st.Hold?
    ensures Nearer(pl, y, z)
  {
    hide Nearer;
    IssuedNearer(pl, y, z, g);
  }

  /** Past the depth test and counted in. */
  lemma PassTest(pl: Plan, y: Sys, t: nat, g: nat) returns (trace: seq<(nat, Ev)>, z: Sys)
    requires Inv(pl, y) && t < |y.pcs| && y.pcs[t] == Trying(g) && g < |y.seats| && pl.mode.Steal? && IssueQdOk(y.nand, pl.mode.qd)
    ensures Runs(pl, y, trace, z) && Inv(pl, z) && z == Go(y, t, Counted(g)).(nand := y.nand + 1)
  {
    InvSized(pl, y);
    hide Inv;
    var y1 := Go(y, t, Cleared(g));
    assert Enabled(pl, y, t, Try) && y1 == Apply(pl, y, t, Try);
    StepKeeps(pl, y, t, Try);
    assert Sized(pl, y1) && Enabled(pl, y1, t, CountIn);
    z := Go(y, t, Counted(g)).(nand := y.nand + 1);
    assert z == Apply(pl, y1, t, CountIn);
    StepKeeps(pl, y1, t, CountIn);
    hide Enabled, Apply, Sized;
    RunsTwo(pl, y, t, Try, y1, CountIn, z);
    trace := [(t, Try), (t, CountIn)];
  }

  lemma SendBack(pl: Plan, y: Sys, t: nat, g: nat, tok: Option<nat>) returns (trace: seq<(nat, Ev)>, z: Sys)
    requires Inv(pl, y) && t < |y.pcs| && y.pcs[t] == Counted(g) && g < |y.seats| && pl.mode.Steal? && y.nand > 0
    requires tok == if NeedOf(pl.p, y.seats[g].q.cand) == [] then None else Some(0)
    requires y.seats[g].st.Hold?
    ensures Runs(pl, y, trace, z) && Inv(pl, z) && OnlyThread(y, z, t) && z.pcs[t].Top?
    ensures OnlySeat(y, z, g) && !z.seats[g].st.Hold?
  {
    InvSized(pl, y);
    hide *;
    var y1 := SendStepOf(pl, y, t, g, tok);
    StepKeeps(pl, y, t, Send(tok));
    InvSized(pl, y1);
    if y1.pcs[t].Top? {
      z := y1;
      NoSteps(pl, y1);
      RunsCons(pl, y, t, Send(tok), y1, [], z);
      trace := [(t, Send(tok))] + [];
    } else {
      SeatHeldOn(y, y1, g);
      z := BackStep(pl, y1, t, g);
      StepKeeps(pl, y1, t, CountOut);
      ThreadTwice(y, y1, z, t);
      SeatTwice(y, y1, z, g);
      RunsTwo(pl, y, t, Send(tok), y1, CountOut, z);
      trace := [(t, Send(tok)), (t, CountOut)];
    }
  }

  lemma SendStepOf(pl: Plan, y: Sys, t: nat, g: nat, tok: Option<nat>) returns (z: Sys)
    requires Sized(pl, y) && t < |y.pcs| && t < pl.threads && y.pcs[t] == Counted(g) && g < |y.seats| && pl.mode.Steal? && y.nand > 0
    requires tok == if NeedOf(pl.p, y.seats[g].q.cand) == [] then None else Some(0)
    requires y.seats[g].st.Hold?
    ensures Enabled(pl, y, t, Send(tok)) && z == Apply(pl, y, t, Send(tok)) && OnlyThread(y, z, t) && OnlySeat(y, z, g) && z.nand == y.nand
    ensures t < |z.pcs| && g < |z.seats| && !z.seats[g].st.Hold?
    ensures if z.pcs[t].Top? then true else z.pcs[t] == Backing(g) && z.seats[g].need == []
  {
    hide NeedOf, GoodSetup;
    z := Apply(pl, y, t, Send(tok));
  }

  lemma BackStep(pl: Plan, y: Sys, t: nat, g: nat) returns (z: Sys)
    requires Sized(pl, y) && t < |y.pcs| && t < pl.threads && y.pcs[t] == Backing(g) && g < |y.seats| && y.nand > 0
    requires y.seats[g].need == [] && !y.seats[g].st.Hold? && !y.seats[g].st.Empty?
    ensures Enabled(pl, y, t, CountOut) && z == Apply(pl, y, t, CountOut) && OnlyThread(y, z, t) && OnlySeat(y, z, g)
    ensures t < |z.pcs| && z.pcs[t].Top? && g < |z.seats| && !z.seats[g].st.Hold?
  {
    hide GoodSetup;
    z := Apply(pl, y, t, CountOut);
  }

  // ------------------------------------------------------------ a seat ranked and finished

  lemma RankRound(pl: Plan, y: Sys, t: nat, g: nat) returns (trace: seq<(nat, Ev)>, z: Sys)
    requires Calm(pl, y) && t < pl.threads && y.pcs[t].Top? && Inv(pl, Go(y, t, Ranking(g))) && g < |y.seats|
    requires t < |y.sources| && AllAttainable(pl, y.sources[t])
    ensures Runs(pl, Go(y, t, Ranking(g)), trace, z) && Calm(pl, z) && SameKinds(y, z) && Nearer(pl, y, z)
  {
    var y2 := Go(y, t, Ranking(g));
    InvSized(pl, y2);
    SeatedOpen(pl, y2, t, g);
    var qi := y.seats[g].qi;
    var to := Found(pl, y.sources[t], qi);
    hide *;
    var y3, y4 := RankWith(pl, y2, t, g, to);
    var sorted;
    sorted, z := FinishWith(pl, y4, t, g);
    trace := ThreeSteps(pl, y2, t, SourceMoves(to), y3, Ev.Rank(true, true, [], []), y4, Finish(sorted), z);
    RankedCalm(pl, y, z, t, g, to);
    AnsweredNearer(pl, y, z, qi, z.results[qi]);
  }

  lemma Found(pl: Plan, src: Source, qi: nat) returns (to: Source)
    requires AllAttainable(pl, src) && qi < |pl.p.asks|
    ensures GoodSetup(pl.p) && SameKind(src, to) && ReadsAll(pl.p, qi, to)
  {
    hide ReadsAll, GoodSetup;
    assert Attainable(pl.p, src, qi);
    to :| SameKind(src, to) && ReadsAll(pl.p, qi, to);
  }

  lemma ThreeSteps(pl: Plan, a: Sys, t: nat, e1: Ev, b: Sys, e2: Ev, c: Sys, e3: Ev, d: Sys) returns (trace: seq<(nat, Ev)>)
    requires t < pl.threads && Sized(pl, a) && Sized(pl, b) && Sized(pl, c)
    requires Enabled(pl, a, t, e1) && b == Apply(pl, a, t, e1) && Enabled(pl, b, t, e2) && c == Apply(pl, b, t, e2)
    requires Enabled(pl, c, t, e3) && d == Apply(pl, c, t, e3)
    ensures Runs(pl, a, trace, d)
  {
    hide *;
    RunsTwo(pl, b, t, e2, c, e3, d);
    RunsCons(pl, a, t, e1, b, [(t, e2), (t, e3)], d);
    trace := [(t, e1)] + [(t, e2), (t, e3)];
  }

  lemma RankedCalm(pl: Plan, y: Sys, z: Sys, t: nat, g: nat, to: Source)
    requires Calm(pl, y) && Inv(pl, z) && t < |y.pcs| == |y.sources| && z.pcs == y.pcs[t := Ranking(g)][t := Finishing(g)][t := Top]
    requires SameKind(y.sources[t], to) && z.sources == y.sources[t := to]
    ensures Calm(pl, z) && SameKinds(y, z)
  {
    hide Inv;
  }

  /** Every query's candidates can be read from a source of that kind. */
  ghost predicate AllAttainable(pl: Plan, src: Source) {
    GoodSetup(pl.p) && forall qi: nat :: qi < |pl.p.asks| ==> Attainable(pl.p, src, qi)
  }

  ghost predicate SameKinds(y: Sys, z: Sys) {
    |y.sources| == |z.sources| && forall t :: 0 <= t < |y.sources| ==> SameKind(y.sources[t], z.sources[t])
  }

  /** The seat being ranked has a query of its own, not yet answered. */
  lemma SeatedOpen(pl: Plan, y: Sys, t: nat, g: nat)
    requires Inv(pl, y) && t < |y.pcs| && y.pcs[t] == Ranking(g) && g < |y.seats|
    ensures var s := y.seats[g];
      && GoodSetup(pl.p) && Tracked(pl.p, s) && s.qi !in y.results && (s.need == [] || s.need == NeedOf(pl.p, s.q.cand))
  {
    AtSeat(pl, y, t);
    var s := y.seats[g];
    assert Settled(pl, s) && (s.st.Wait? || s.st.Ready?);
    hide ThreadsOk, NandOk, SourcesOk, AnswersOk, Unclaimed;
    assert On(y.seats, g, s.qi);
  }

  lemma RankWith(pl: Plan, y: Sys, t: nat, g: nat, to: Source) returns (y1: Sys, y2: Sys)
    requires Inv(pl, y) && t < |y.pcs| == |y.sources| && y.pcs[t] == Ranking(g) && g < |y.seats|
    requires GoodSetup(pl.p) && y.seats[g].qi < |pl.p.asks| && SameKind(y.sources[t], to) && ReadsAll(pl.p, y.seats[g].qi, to)
    ensures Sized(pl, y) && t < pl.threads && Enabled(pl, y, t, SourceMoves(to)) && y1 == Apply(pl, y, t, SourceMoves(to))
    ensures Sized(pl, y1) && Enabled(pl, y1, t, Ev.Rank(true, true, [], [])) && y2 == Apply(pl, y1, t, Ev.Rank(true, true, [], []))
    ensures Inv(pl, y2) && y2.pcs == y.pcs[t := Finishing(g)] && y2.results == y.results && y2.sources == y.sources[t := to]
    ensures |y2.seats| == |y.seats| && y2.seats[g].qi == y.seats[g].qi
  {
    SeatedOpen(pl, y, t, g);
    ReadyToRank(pl.p, y.seats[g], to);
    InvSized(pl, y);
    hide *;
    y1 := MoveSource(pl, y, t, to);
    InvSized(pl, y1);
    y2 := RankNow(pl, y1, t, g, to);
    StepKeeps(pl, y1, t, Ev.Rank(true, true, [], []));
  }

  lemma ReadyToRank(p: Setup, s: Seat, to: Source)
    requires Tracked(p, s) && ReadsAll(p, s.qi, to) && (s.need == [] || s.need == NeedOf(p, s.q.cand))
    ensures GoodSetup(p) && s.qi < |p.asks| && Readable(p, to) && Covering(to, s.need) && RankOnce(p, s, to).1
  {
    SameIdsSameNeed(p, s.q.cand, Serial(p, s.qi).cand);
    hide NeedOf, RankOnce, Serial, Reads;
    RankSucceeds(p, s, to);
  }

  lemma MoveSource(pl: Plan, y: Sys, t: nat, to: Source) returns (z: Sys)
    requires Inv(pl, y) && t < |y.pcs| == |y.sources| && GoodSetup(pl.p) && Readable(pl.p, to) && SameKind(y.sources[t], to)
    ensures Sized(pl, y) && t < pl.threads && Enabled(pl, y, t, SourceMoves(to)) && z == Apply(pl, y, t, SourceMoves(to))
    ensures Inv(pl, z) && z == y.(sources := y.sources[t := to])
  {
    InvSized(pl, y);
    hide Inv;
    z := Apply(pl, y, t, SourceMoves(to));
    StepKeeps(pl, y, t, SourceMoves(to));
  }

  lemma RankNow(pl: Plan, y: Sys, t: nat, g: nat, to: Source) returns (z: Sys)
    requires Sized(pl, y) && t < |y.pcs| && y.sources[t] == to && y.pcs[t] == Ranking(g) && g < |y.seats|
    requires GoodSetup(pl.p) && y.seats[g].qi < |pl.p.asks| && Covering(to, y.seats[g].need) && RankOnce(pl.p, y.seats[g], to).1
    ensures t < pl.threads && Enabled(pl, y, t, Ev.Rank(true, true, [], [])) && z == Apply(pl, y, t, Ev.Rank(true, true, [], []))
    ensures z.pcs == y.pcs[t := Finishing(g)] && z.results == y.results && z.sources == y.sources
    ensures |z.seats| == |y.seats| && z.seats[g].qi == y.seats[g].qi
  {
    RankSeat(pl.p, y.seats[g], to);
    hide RankOnce, Covering, GoodSetup;
    z := Apply(pl, y, t, Ev.Rank(true, true, [], []));
  }

  lemma RankSeat(p: Setup, s: Seat, src: Source)
    requires GoodSetup(p) && s.qi < |p.asks|
    ensures RankOnce(p, s, src).0.qi == s.qi
  {}

  lemma FinishWith(pl: Plan, y: Sys, t: nat, g: nat) returns (sorted: seq<Cand>, z: Sys)
    requires Inv(pl, y) && t < |y.pcs| && y.pcs[t] == Finishing(g) && g < |y.seats|
    ensures Sized(pl, y) && t < pl.threads && Enabled(pl, y, t, Finish(sorted)) && z == Apply(pl, y, t, Finish(sorted))
    ensures Inv(pl, z) && z.pcs == y.pcs[t := Top] && z.sources == y.sources
    ensures y.seats[g].qi in z.results && z.results == y.results[y.seats[g].qi := z.results[y.seats[g].qi]]
  {
    InvSized(pl, y);
    NextStep(pl, y, t);
    sorted := SortedCopy(y.seats[g].q.cand);
    hide Inv, SortOf, Outcome;
    assert Enabled(pl, y, t, Finish(sorted));
    z := Apply(pl, y, t, Finish(sorted));
    StepKeeps(pl, y, t, Finish(sorted));
  }

  // ------------------------------------------------------------ to the end

  /** A thread whose round gets something done: it has a seat to rank, or nothing is counted. */
  lemma SomeThread(pl: Plan, y: Sys) returns (t: nat)
    requires Calm(pl, y) && exists u :: 0 <= u < |y.pcs| && !y.pcs[u].Exited?
    ensures t < |y.pcs| == pl.threads == |y.sources| && y.pcs[t].Top? && (y.nand == 0 || HasWaiting(pl, y, t))
  {
    InvSized(pl, y);
    if y.nand == 0 {
      t :| 0 <= t < |y.pcs| && !y.pcs[t].Exited?;
    } else {
      var g := HeldPlace(pl, y);
      t := OwnerOf(pl, y, g);
      HeldWaits(pl, y, t, g);
      assert Owns(pl, t, g) && y.seats[g].st.Wait?;
    }
  }

  /** With no thread counted in, what is counted is held by some seat. */
  lemma HeldPlace(pl: Plan, y: Sys) returns (g: nat)
    requires Calm(pl, y) && y.nand > 0
    ensures g < |y.seats| && y.seats[g].held
  {
    hide ThreadsOk, Booked, SourcesOk, AnswersOk;
    CountBound(HeldFlags(y.seats));
    CountBound(CountedFlags(y.pcs));
    forall t | 0 <= t < |y.pcs| ensures !y.pcs[t].Counted? { assert Idle(y.pcs[t]); }
    var f := HeldFlags(y.seats);
    assert exists i :: 0 <= i < |f| && f[i];
    g :| 0 <= g < |f| && f[g];
  }

  lemma HeldWaits(pl: Plan, y: Sys, t: nat, g: nat)
    requires Calm(pl, y) && t < pl.threads && Owns(pl, t, g) && g < |y.seats| && y.seats[g].held
    ensures t < |y.pcs| && y.pcs[t].Top? && y.seats[g].st.Wait?
  {
    AtThread(pl, y, t);
    hide ThreadsOk, Booked, SourcesOk, AnswersOk, NandOk, NeedOf, Tracked;
    assert Idle(y.pcs[t]) && ThreadAt(pl, y, t);
  }

  /** One round of such a thread. */
  lemma Round(pl: Plan, y: Sys, t: nat) returns (trace: seq<(nat, Ev)>, z: Sys)
    requires Calm(pl, y) && t < |y.pcs| == pl.threads == |y.sources| && y.pcs[t].Top? && (y.nand == 0 || HasWaiting(pl, y, t))
    requires AllAttainable(pl, y.sources[t])
    ensures Runs(pl, y, trace, z) && Calm(pl, z) && SameKinds(y, z) && Nearer(pl, y, z)
  {
    hide *;
    var first, d := PickUp(pl, y, t);
    var rest;
    rest, z := Carry(pl, y, t, d);
    RunsJoin(pl, y, first, Go(y, t, Target(pl, t, d)), rest, z);
    trace := first + rest;
  }

  /** What the thread does with its decision. */
  lemma Carry(pl: Plan, y: Sys, t: nat, d: ContBatch.Act) returns (trace: seq<(nat, Ev)>, z: Sys)
    requires Calm(pl, y) && t < |y.pcs| == pl.threads == |y.sources| && y.pcs[t].Top? && (y.nand == 0 || HasWaiting(pl, y, t))
    requires AllAttainable(pl, y.sources[t])
    requires Base(pl, t) + pl.depth <= |y.seats| && d == Decision(pl, y, t, AllCovered(pl), More(pl, y, t))
    requires Inv(pl, Go(y, t, Target(pl, t, d)))
    ensures Runs(pl, Go(y, t, Target(pl, t, d)), trace, z) && Calm(pl, z) && SameKinds(y, z) && Nearer(pl, y, z)
  {
    hide *;
    DecidesWell(pl, y, t);
    match d
    case Fill(i) =>
      TargetIs(pl, t, d, i);
      trace, z := FillRound(pl, y, t, Base(pl, t) + i);
      SameSources(y, z);
    case Issue(i) =>
      TargetIs(pl, t, d, i);
      trace, z := IssueRound(pl, y, t, Base(pl, t) + i);
      SameSources(y, z);
    case Rank(i) =>
      TargetIs(pl, t, d, i);
      trace, z := RankRound(pl, y, t, Base(pl, t) + i);
    case Finished =>
      TargetIs(pl, t, d, 0);
      trace, z := [], Go(y, t, Exited);
      NoSteps(pl, z);
      LeftCalm(pl, y, t);
      LeftNearer(pl, y, z, t);
  }

  lemma TargetIs(pl: Plan, t: nat, d: ContBatch.Act, i: nat)
    ensures d == Fill(i) ==> Target(pl, t, d) == Filling(Base(pl, t) + i)
    ensures d == Issue(i) ==> Target(pl, t, d) == Trying(Base(pl, t) + i)
    ensures d == ContBatch.Act.Rank(i) ==> Target(pl, t, d) == Ranking(Base(pl, t) + i)
    ensures d == Finished ==> Target(pl, t, d) == Exited
  {}

  lemma SameSources(y: Sys, z: Sys)
    requires z.sources == y.sources
    ensures SameKinds(y, z)
  {}

  lemma LeftCalm(pl: Plan, y: Sys, t: nat)
    requires Calm(pl, y) && t < |y.pcs| && Inv(pl, Go(y, t, Exited))
    ensures Calm(pl, Go(y, t, Exited)) && SameKinds(y, Go(y, t, Exited))
  {
    hide Inv;
  }

  ghost predicate AllGone(y: Sys) {
    forall t :: 0 <= t < |y.pcs| ==> y.pcs[t].Exited?
  }

  /** All threads' sources are of the kind of the first one's. */
  lemma KindOfAll(pl: Plan, y: Sys, t: nat)
    requires Inv(pl, y) && t < pl.threads
    ensures t < |y.sources| && SameKind(y.sources[0], y.sources[t])
  {
    hide ThreadsOk, Booked, NandOk, AnswersOk;
  }

  lemma AttainableKind(pl: Plan, a: Source, b: Source)
    requires AllAttainable(pl, a) && SameKind(a, b)
    ensures AllAttainable(pl, b)
  {
    hide Attainable;
    forall qi: nat | qi < |pl.p.asks| ensures Attainable(pl.p, b, qi) { KindAttains(pl.p, a, b, qi); }
  }

  /** From a calm state, when every query's candidates can be read, round after round until everyone has left. */
  lemma {:induction false} ToTheEnd(pl: Plan, y: Sys) returns (trace: seq<(nat, Ev)>, z: Sys)
    requires Calm(pl, y) && |y.sources| > 0 && AllAttainable(pl, y.sources[0])
    ensures Runs(pl, y, trace, z) && AllGone(z)
    decreases Count(Unanswered(|pl.p.asks|, y.results)), Count(Empties(y.seats)), Count(OnHold(y.seats)), Count(Present(y.pcs))
  {
    if AllGone(y) {
      NoSteps(pl, y);
      trace, z := [], y;
    } else {
      var t := SomeThread(pl, y);
      CalmInv(pl, y);
      hide Calm, Inv, Runs, AllAttainable, SameKind, SameKinds;
      KindOfAll(pl, y, t);
      AttainableKind(pl, y.sources[0], y.sources[t]);
      var first, y1 := Round(pl, y, t);
      KindFirst(y, y1);
      AttainableKind(pl, y.sources[0], y1.sources[0]);
      var rest;
      rest, z := ToTheEnd(pl, y1);
      RunsJoin(pl, y, first, y1, rest, z);
      trace := first + rest;
    }
  }

  lemma CalmInv(pl: Plan, y: Sys)
    requires Calm(pl, y)
    ensures Inv(pl, y)
  {}

  lemma KindFirst(y: Sys, z: Sys)
    requires SameKinds(y, z) && |y.sources| > 0
    ensures |z.sources| > 0 && SameKind(y.sources[0], z.sources[0])
  {}

  /** From every state of every run, when every query's candidates can be read, some run goes on to where every thread has left. */
  lemma CanEnd(pl: Plan, y: Sys) returns (trace: seq<(nat, Ev)>, z: Sys)
    requires Inv(pl, y) && |y.sources| > 0 && AllAttainable(pl, y.sources[0])
    ensures Runs(pl, y, trace, z) && AllGone(z)
  {
    assert CalmTo(y, 0);
    hide *;
    var first, y1 := AllToTop(pl, y, 0);
    var rest;
    rest, z := ToTheEnd(pl, y1);
    RunsJoin(pl, y, first, y1, rest, z);
    trace := first + rest;
  }

  // ------------------------------------------------------------ and only then

  /** Queries answered, or about to be, had their candidates read. */
  ghost predicate Attained(pl: Plan, y: Sys, kind: Source) {
    && GoodSetup(pl.p)
    && (forall t :: 0 <= t < |y.sources| ==> SameKind(kind, y.sources[t]))
    && (forall qi :: qi in y.results ==> qi < |pl.p.asks| && Attainable(pl.p, kind, qi))
    && (forall t :: 0 <= t < |y.pcs| ==> PcAttained(pl, y, t, kind))
  }

  ghost predicate PcAttained(pl: Plan, y: Sys, t: nat, kind: Source)
    requires GoodSetup(pl.p) && t < |y.pcs|
  {
    y.pcs[t].Finishing? ==>
      y.pcs[t].g < |y.seats| && y.seats[y.pcs[t].g].qi < |pl.p.asks| && Attainable(pl.p, kind, y.seats[y.pcs[t].g].qi)
  }

  /** A step touches only its thread's place and the seat that thread works on. */
  lemma StepTouches(pl: Plan, y: Sys, t: nat, e: Ev)
    requires Sized(pl, y) && t < pl.threads && Enabled(pl, y, t, e)
    ensures var z := Apply(pl, y, t, e);
      && |z.pcs| == |y.pcs| && z.pcs == y.pcs[t := z.pcs[t]] && |z.seats| == |y.seats|
      && (z.seats == y.seats || (HasSeat(y.pcs[t]) && y.pcs[t].g < |y.seats| && z.seats == y.seats[y.pcs[t].g := z.seats[y.pcs[t].g]]))
  {
    hide Admitted, Issued, Outcome, RankOnce, NeedOf, GoodSetup, StealDecide, Pipe2Decide;
  }

  lemma SeatPlace(pl: Plan, y: Sys, t: nat)
    requires Inv(pl, y) && t < pl.threads && HasSeat(y.pcs[t])
    ensures y.pcs[t].g < |y.seats| && Owns(pl, t, y.pcs[t].g)
  {
    AtSeat(pl, y, t);
  }

  /** Another thread's place, and the seat it is about to finish, stay as they are. */
  lemma OtherKept(pl: Plan, y: Sys, t: nat, e: Ev, u: nat, kind: Source)
    requires Inv(pl, y) && Sized(pl, y) && t < pl.threads && u < |y.pcs| == pl.threads && u != t && Enabled(pl, y, t, e)
    requires GoodSetup(pl.p) && PcAttained(pl, y, u, kind)
    ensures |Apply(pl, y, t, e).pcs| == |y.pcs| && PcAttained(pl, Apply(pl, y, t, e), u, kind)
  {
    hide Inv, Sized, Enabled, Apply, Owns, Attainable, GoodSetup;
    StepTouches(pl, y, t, e);
    if y.pcs[u].Finishing? {
      SeatPlace(pl, y, u);
      if HasSeat(y.pcs[t]) {
        SeatPlace(pl, y, t);
        OwnersApart(pl, t, u, y.pcs[t].g);
      }
    }
  }

  lemma StepAttained(pl: Plan, y: Sys, t: nat, e: Ev, kind: Source)
    requires Inv(pl, y) && t < pl.threads && Enabled(pl, y, t, e) && Attained(pl, y, kind)
    ensures Attained(pl, Apply(pl, y, t, e), kind)
  {
    var z := Apply(pl, y, t, e);
    InvSized(pl, y);
    AttainedParts(pl, y, kind);
    hide *;
    StepTouches(pl, y, t, e);
    StepSources(pl, y, t, e, kind);
    StepResults(pl, y, t, e, kind);
    forall u | 0 <= u < |z.pcs| ensures PcAttained(pl, z, u, kind) {
      if u != t { OtherKept(pl, y, t, e, u, kind); } else { OwnPc(pl, y, t, e, kind); }
    }
    MakeAttained(pl, z, kind);
  }

  lemma AttainedParts(pl: Plan, y: Sys, kind: Source)
    requires Attained(pl, y, kind)
    ensures GoodSetup(pl.p) && (forall t :: 0 <= t < |y.sources| ==> SameKind(kind, y.sources[t]))
    ensures forall t :: 0 <= t < |y.pcs| ==> PcAttained(pl, y, t, kind)
  {}

  lemma MakeAttained(pl: Plan, y: Sys, kind: Source)
    requires GoodSetup(pl.p) && (forall t :: 0 <= t < |y.sources| ==> SameKind(kind, y.sources[t]))
    requires forall qi :: qi in y.results ==> qi < |pl.p.asks| && Attainable(pl.p, kind, qi)
    requires forall t :: 0 <= t < |y.pcs| ==> PcAttained(pl, y, t, kind)
    ensures Attained(pl, y, kind)
  {}

  lemma StepSources(pl: Plan, y: Sys, t: nat, e: Ev, kind: Source)
    requires Sized(pl, y) && t < pl.threads && Enabled(pl, y, t, e) && (forall u :: 0 <= u < |y.sources| ==> SameKind(kind, y.sources[u]))
    ensures var z := Apply(pl, y, t, e); forall u :: 0 <= u < |z.sources| ==> SameKind(kind, z.sources[u])
  {
    hide Admitted, Issued, Outcome, RankOnce, NeedOf, GoodSetup, StealDecide, Pipe2Decide, Readable;
  }

  lemma StepResults(pl: Plan, y: Sys, t: nat, e: Ev, kind: Source)
    requires Sized(pl, y) && t < pl.threads && Enabled(pl, y, t, e) && Attained(pl, y, kind)
    ensures forall qi :: qi in Apply(pl, y, t, e).results ==> qi < |pl.p.asks| && Attainable(pl.p, kind, qi)
  {
    NewResult(pl, y, t, e);
    assert PcAttained(pl, y, t, kind);
    hide Apply, Enabled, GoodSetup, Attainable;
  }

  /** An answer that was not there before is that of the seat being finished. */
  lemma NewResult(pl: Plan, y: Sys, t: nat, e: Ev)
    requires Sized(pl, y) && t < pl.threads && Enabled(pl, y, t, e)
    ensures forall qi :: qi in Apply(pl, y, t, e).results ==>
              qi in y.results || (y.pcs[t].Finishing? && y.pcs[t].g < |y.seats| && qi == y.seats[y.pcs[t].g].qi)
  {
    hide Admitted, Issued, Outcome, RankOnce, NeedOf, GoodSetup, StealDecide, Pipe2Decide, Readable;
  }

  /** A thread comes to finish a seat only by having read all of its candidates. */
  lemma OwnPc(pl: Plan, y: Sys, t: nat, e: Ev, kind: Source)
    requires Inv(pl, y) && t < pl.threads && Enabled(pl, y, t, e) && Attained(pl, y, kind)
    ensures GoodSetup(pl.p) && |Apply(pl, y, t, e).pcs| == |y.pcs| == pl.threads && PcAttained(pl, Apply(pl, y, t, e), t, kind)
  {
    InvSized(pl, y);
    assert PcAttained(pl, y, t, kind) && SameKind(kind, y.sources[t]);
    if e.Rank? {
      RankAttains(pl, y, t, e, kind);
    } else {
      NotFinishing(pl, y, t, e);
    }
  }

  /** No other step brings a thread there. */
  lemma NotFinishing(pl: Plan, y: Sys, t: nat, e: Ev)
    requires Sized(pl, y) && t < pl.threads && Enabled(pl, y, t, e) && !e.Rank?
    ensures var z := Apply(pl, y, t, e);
      |z.pcs| == |y.pcs| && (z.pcs[t].Finishing? ==> z.pcs[t] == y.pcs[t] && z.seats == y.seats)
  {
    hide Admitted, Issued, Outcome, RankOnce, NeedOf, GoodSetup, StealDecide, Pipe2Decide;
  }

  lemma RankAttains(pl: Plan, y: Sys, t: nat, e: Ev, kind: Source)
    requires Inv(pl, y) && t < pl.threads && Enabled(pl, y, t, e) && e.Rank? && |y.pcs| == |y.sources| == pl.threads && SameKind(kind, y.sources[t])
    ensures GoodSetup(pl.p) && |Apply(pl, y, t, e).pcs| == |y.pcs| && PcAttained(pl, Apply(pl, y, t, e), t, kind)
  {
    var z := Apply(pl, y, t, e);
    var g := y.pcs[t].g;
    var s := y.seats[g];
    SeatedOpen(pl, y, t, g);
    SourceGood(pl, y, t);
    RankEnds(pl, y, t, e);
    if z.pcs[t].Finishing? {
      assert Covering(y.sources[t], NeedOf(pl.p, s.q.cand)) by { RankCovered(pl, y, t, g); }
      RankSucceeds(pl.p, s, y.sources[t]);
      hide *;
      KindFound(pl.p, kind, y.sources[t], s.qi);
      MakePc(pl, z, t, kind);
    } else {
      hide *;
      MakePc(pl, z, t, kind);
    }
  }

  lemma MakePc(pl: Plan, y: Sys, t: nat, kind: Source)
    requires GoodSetup(pl.p) && t < |y.pcs|
    requires y.pcs[t].Finishing? ==> y.pcs[t].g < |y.seats| && y.seats[y.pcs[t].g].qi < |pl.p.asks| && Attainable(pl.p, kind, y.seats[y.pcs[t].g].qi)
    ensures PcAttained(pl, y, t, kind)
  {}

  lemma KindFound(p: Setup, kind: Source, src: Source, qi: nat)
    requires GoodSetup(p) && qi < |p.asks| && SameKind(kind, src) && ReadsAll(p, qi, src)
    ensures Attainable(p, kind, qi)
  {
    hide ReadsAll;
  }

  lemma SourceGood(pl: Plan, y: Sys, t: nat)
    requires Inv(pl, y) && t < |y.sources|
    ensures GoodSetup(pl.p) && Readable(pl.p, y.sources[t])
  {
    hide ThreadsOk, Booked, NandOk, AnswersOk, Readable;
  }

  /** The pages the covering test asks for are those of the candidates. */
  lemma RankCovered(pl: Plan, y: Sys, t: nat, g: nat)
    requires Inv(pl, y) && t < |y.pcs| == |y.sources| && y.pcs[t] == Ranking(g) && g < |y.seats| && Covering(y.sources[t], y.seats[g].need)
    ensures Covering(y.sources[t], NeedOf(pl.p, y.seats[g].q.cand))
  {
    AtSeat(pl, y, t);
    assert Settled(pl, y.seats[g]);
    assert NeedOf(pl.p, []) == [];
    hide ThreadsOk, Booked, NandOk, AnswersOk;
  }

  /** A rank attempt that gets its thread to finishing has read all. */
  lemma RankEnds(pl: Plan, y: Sys, t: nat, e: Ev)
    requires Sized(pl, y) && t < pl.threads && Enabled(pl, y, t, e) && e.Rank?
    ensures var z, g := Apply(pl, y, t, e), y.pcs[t].g;
      && |z.pcs| == |y.pcs|
      && (z.pcs[t].Finishing? ==>
            && e.now && z.pcs[t].g == g < |z.seats| && z.seats[g].qi == y.seats[g].qi
            && Covering(y.sources[t], y.seats[g].need) && RankOnce(pl.p, y.seats[g], y.sources[t]).1)
  {
    var s := y.seats[y.pcs[t].g];
    RankSeat(pl.p, s, y.sources[t]);
    RankSeat(pl.p, AddToks(s, e.early), y.sources[t]);
    ToksAside(pl.p, s, e.early, y.sources[t]);
    hide RankOnce, NeedOf, GoodSetup, Covering;
  }

  lemma ToksAside(p: Setup, s: Seat, toks: seq<nat>, src: Source)
    requires GoodSetup(p) && s.qi < |p.asks|
    ensures RankOnce(p, AddToks(s, toks), src).1 == RankOnce(p, s, src).1
  {}

  lemma {:induction false} RunAttained(pl: Plan, y: Sys, trace: seq<(nat, Ev)>, z: Sys, kind: Source)
    requires Inv(pl, y) && Runs(pl, y, trace, z) && Attained(pl, y, kind)
    ensures Inv(pl, z) && Attained(pl, z, kind)
    decreases |trace|
  {
    hide Inv, Enabled, Apply, Sized, Attained;
    if trace != [] {
      var (t, e) := trace[0];
      StepKeeps(pl, y, t, e);
      StepAttained(pl, y, t, e, kind);
      RunAttained(pl, Apply(pl, y, t, e), trace[1..], z, kind);
    }
  }

  lemma StartAttained(pl: Plan, y: Sys)
    requires Start(pl, y)
    ensures |y.sources| > 0 && Attained(pl, y, y.sources[0])
  {
    hide Attainable, Readable;
  }

  lemma AttainedKind(pl: Plan, y: Sys, kind: Source)
    requires Attained(pl, y, kind)
    ensures forall t :: 0 <= t < |y.sources| ==> SameKind(kind, y.sources[t])
    ensures GoodSetup(pl.p) && forall qi :: qi in y.results ==> qi < |pl.p.asks| && Attainable(pl.p, kind, qi)
  {}

  lemma RunsOn(pl: Plan, y: Sys, a: seq<(nat, Ev)>, z: Sys)
    requires Start(pl, y) && Runs(pl, y, a, z)
    ensures Inv(pl, z) && |y.sources| > 0 && Attained(pl, z, y.sources[0]) && |z.sources| > 0 && SameKind(y.sources[0], z.sources[0])
  {
    StartInv(pl, y);
    StartAttained(pl, y);
    RunAttained(pl, y, a, z, y.sources[0]);
    InvSized(pl, z);
    assert pl.threads > 0 by { InvSized(pl, z); }
    AttainedKind(pl, z, y.sources[0]);
  }

  /** All threads gone, every query was answered, so its candidates could be read. */
  lemma GoneAttained(pl: Plan, y: Sys, a: seq<(nat, Ev)>, z: Sys)
    requires Start(pl, y) && Runs(pl, y, a, z) && AllGone(z)
    ensures |y.sources| > 0 && AllAttainable(pl, y.sources[0])
  {
    RunsOn(pl, y, a, z);
    assert forall t :: 0 <= t < |z.pcs| ==> z.pcs[t].Exited?;
    AllLeft(pl, y, a, z);
    AttainedKind(pl, z, y.sources[0]);
    hide Start, Runs, Inv, Attained, Attainable;
  }

  /**
   From every state of every run: some run goes on until every thread has left,
   which is when every query has its answer, exactly when every query's
   candidates can be read from a source of the kind the threads score from.
   */
  lemma EndsIff(pl: Plan, y: Sys, trace: seq<(nat, Ev)>, z: Sys)
    requires Start(pl, y) && Runs(pl, y, trace, z)
    ensures |y.sources| > 0 && ((exists more, w :: Runs(pl, z, more, w) && AllGone(w)) <==> AllAttainable(pl, y.sources[0]))
  {
    hide *;
    RunsOn(pl, y, trace, z);
    if AllAttainable(pl, y.sources[0]) {
      AttainableKind(pl, y.sources[0], z.sources[0]);
      var more, w := CanEnd(pl, z);
      assert Runs(pl, z, more, w) && AllGone(w);
    }
    if more, w :| Runs(pl, z, more, w) && AllGone(w) {
      RunsJoin(pl, y, trace, z, more, w);
      GoneAttained(pl, y, trace + more, w);
    }
  }

  /** Where such a run ends every query has its answer. */
  lemma AnswersHappen(pl: Plan, y: Sys, trace: seq<(nat, Ev)>, z: Sys) returns (more: seq<(nat, Ev)>, w: Sys)
    requires Start(pl, y) && Runs(pl, y, trace, z) && |y.sources| > 0 && AllAttainable(pl, y.sources[0])
    ensures Runs(pl, z, more, w) && AllGone(w)
    ensures forall qi: nat :: qi < |pl.p.asks| ==> GoodSetup(pl.p) && qi in w.results && Answer(pl.p, qi, w.results[qi])
  {
    RunsOn(pl, y, trace, z);
    AttainableKind(pl, y.sources[0], z.sources[0]);
    more, w := CanEnd(pl, z);
    RunsJoin(pl, y, trace, z, more, w);
    assert forall t :: 0 <= t < |w.pcs| ==> w.pcs[t].Exited?;
    hide Start, Runs, Answer;
    AllLeft(pl, y, trace + more, w);
  }
}
