/**
 The shared scheduler can always come to an end: from every state of every run
 some run goes on until every query is answered, exactly when there are workers
 and seats and every candidate's vector can be read.
 */
module SharedEnds {
  import opened Common
  import opened Counting
  import opened ContBatch
  import opened BeamSpec
  import opened Query
  import opened Seats
  import opened Ledger
  import opened SharedReads
  import opened SharedScheduler
  import opened SharedProofs
  import SP = SchedulerProofs
  import A = Attain
  import W = WindowSpec
  import WP = WindowProofs
  import DW = DramWindows

  // ------------------------------------------------------------ what can be read

  /** Some read of the vector comes through. */
  ghost predicate CanRead(c: W.Config, off: nat, n: nat)
    requires c.pageBytes > 0 && n > 0
  {
    exists r: Reading :: FromValid(c, r) && BytesRead(c, off, n, r).Some?
  }

  /** A vector can be read exactly when its pages fit the window's frames and lie whole in the image. */
  lemma CanReadIff(c: W.Config, off: nat, n: nat)
    requires c.pageBytes > 0 && n > 0
    ensures CanRead(c, off, n) <==> |A.SpanPages(c.pageBytes, off, n)| <= c.nFrames && A.ArePages(c, A.SpanPages(c.pageBytes, off, n))
  {
    hide *;
    A.SpanHeldIff(c, off, n);
    if CanRead(c, off, n) { var w := ReadHeld(c, off, n); }
    if w: W.Win :| WP.Valid(c, w) && DW.SpanResident(c, w, off, n) { HeldRead(c, w, off, n); }
  }

  /** A read that comes through had its pages resident in some window. */
  lemma ReadHeld(c: W.Config, off: nat, n: nat) returns (w: W.Win)
    requires c.pageBytes > 0 && n > 0 && CanRead(c, off, n)
    ensures WP.Valid(c, w) && DW.SpanResident(c, w, off, n)
  {
    var r: Reading :| FromValid(c, r) && BytesRead(c, off, n, r).Some?;
    w := if r.Copied? then r.win else r.at;
    OnePageResident(c, w, off, n);
    hide WP.Valid, DW.SpanResident;
  }

  lemma HeldRead(c: W.Config, w: W.Win, off: nat, n: nat)
    requires c.pageBytes > 0 && n > 0 && WP.Valid(c, w) && DW.SpanResident(c, w, off, n)
    ensures CanRead(c, off, n)
  {
    hide WP.Valid, DW.SpanResident;
    assert FromValid(c, Copied(w)) && BytesRead(c, off, n, Copied(w)).Some?;
  }

  lemma OnePageResident(c: W.Config, w: W.Win, off: nat, n: nat)
    requires c.pageBytes > 0 && n > 0
    ensures OnePage(c, w, off, n) ==> DW.SpanResident(c, w, off, n)
  {
    DW.OnePageSpan(c, w, off, n);
  }

  /** Every candidate of the query can be read. */
  ghost predicate Scorable(p: Setup, qi: nat)
    requires GoodSetup(p) && qi < |p.asks|
  {
    AllReadable(p, Serial(p, qi).cand)
  }

  ghost predicate AllReadable(p: Setup, cand: seq<Cand>)
    requires GoodSetup(p)
  {
    forall i :: 0 <= i < |cand| ==> cand[i].id < |p.vecOff| && CanRead(p.cache, p.vecOff[cand[i].id], p.vecBytes)
  }

  /** Readings of every candidate that come through. */
  lemma GoodReadings(p: Setup, qi: nat, cand: seq<Cand>) returns (readings: seq<Reading>)
    requires GoodSetup(p) && qi < |p.asks| && AllReadable(p, cand)
    ensures |readings| == |cand| && (forall i :: 0 <= i < |readings| ==> FromValid(p.cache, readings[i]))
    ensures var got := Scores(p, qi, cand, readings); Got(got, |got|)
  {
    assert p.cache.pageBytes > 0 && p.vecBytes > 0;
    readings := seq(|cand|, i requires 0 <= i < |cand| && GoodSetup(p) && AllReadable(p, cand) => GoodReading(p, cand, i));
    hide FromValid, BytesRead, GoodSetup, AllReadable, Scores, GoodReading;
    forall i: nat | i < |cand| ensures Scores(p, qi, cand, readings)[i].Some? {
      assert readings[i] == GoodReading(p, cand, i);
      ScoreAt(p, qi, cand, readings, i);
    }
  }

  ghost function GoodReading(p: Setup, cand: seq<Cand>, i: nat): (r: Reading)
    requires GoodSetup(p) && AllReadable(p, cand) && i < |cand|
    ensures cand[i].id < |p.vecOff| && FromValid(p.cache, r) && BytesRead(p.cache, p.vecOff[cand[i].id], p.vecBytes, r).Some?
  {
    assert CanRead(p.cache, p.vecOff[cand[i].id], p.vecBytes);
    var r: Reading :| FromValid(p.cache, r) && BytesRead(p.cache, p.vecOff[cand[i].id], p.vecBytes, r).Some?;
    r
  }

  ghost predicate ReadAt(p: Setup, cand: seq<Cand>, readings: seq<Reading>, i: nat)
    requires p.cache.pageBytes > 0 && p.vecBytes > 0 && i < |cand| && i < |readings|
  {
    cand[i].id < |p.vecOff| && BytesRead(p.cache, p.vecOff[cand[i].id], p.vecBytes, readings[i]).Some?
  }

  lemma ScoreAt(p: Setup, qi: nat, cand: seq<Cand>, readings: seq<Reading>, i: nat)
    requires GoodSetup(p) && qi < |p.asks| && |readings| == |cand| && i < |cand|
    ensures Scores(p, qi, cand, readings)[i].Some? <==> ReadAt(p, cand, readings, i)
  {
    hide BytesRead;
    if cand[i].id >= |p.vecOff| {
      assert Scores(p, qi, cand, readings)[i] == None;
    } else {
      match BytesRead(p.cache, p.vecOff[cand[i].id], p.vecBytes, readings[i])
      case None => assert Scores(p, qi, cand, readings)[i] == None;
      case Some(bytes) => assert Scores(p, qi, cand, readings)[i] == Some(p.asks[qi].metric(bytes));
    }
  }

  /** Only the ids matter. */
  lemma SameReadable(p: Setup, a: seq<Cand>, b: seq<Cand>)
    requires GoodSetup(p) && Ids(a) == Ids(b)
    ensures AllReadable(p, a) == AllReadable(p, b)
  {
    assert |a| == |Ids(a)| && |b| == |Ids(b)|;
    hide CanRead, GoodSetup;
    assert forall i :: 0 <= i < |a| ==> a[i].id == Ids(a)[i] == Ids(b)[i] == b[i].id;
  }

  // ------------------------------------------------------------ back to the top

  function Steps(pc: Pc): nat {
    match pc
    case Top => 0
    case Left => 0
    case Locking => 5
    case Own(_) => 4
    case Tried(_) => 3
    case Handing(_, _) => 2
  }

  predicate Idle(pc: Pc) {
    pc.Top? || pc.Left?
  }

  ghost predicate OnlyWorker(y: Sys, z: Sys, t: nat) {
    t < |y.pcs| == |z.pcs| && z.pcs == y.pcs[t := z.pcs[t]] && |z.seats| == |y.seats|
  }

  lemma StepDown(p: Setup, y: Sys, t: nat, e: Ev)
    requires GoodSetup(p) && t < |y.pcs| && |y.nexts| == 1 && Enabled(p, y, t, e) && !Idle(y.pcs[t])
    ensures var z := Apply(p, y, t, e); OnlyWorker(y, z, t) && Steps(z.pcs[t]) < Steps(y.pcs[t])
  {
    hide Admit, GoodSetup, Scores, RankedSeat, Issued, Beam, Outcome;
  }

  lemma RunsCons(p: Setup, y: Sys, t: nat, e: Ev, y1: Sys, rest: seq<(nat, Ev)>, z: Sys)
    requires GoodSetup(p) && t < |y.pcs| && |y.nexts| == 1 && Enabled(p, y, t, e) && y1 == Apply(p, y, t, e) && Runs(p, y1, rest, z)
    ensures Runs(p, y, [(t, e)] + rest, z)
  {
    hide Enabled, Apply, GoodSetup;
    var s := [(t, e)] + rest;
    assert s[0] == (t, e) && s[1..] == rest;
  }

  lemma {:induction false} RunsJoin(p: Setup, a: Sys, s: seq<(nat, Ev)>, b: Sys, r: seq<(nat, Ev)>, c: Sys)
    requires Runs(p, a, s, b) && Runs(p, b, r, c)
    ensures Runs(p, a, s + r, c)
    decreases |s|
  {
    hide Enabled, Apply, GoodSetup;
    if s == [] {
      assert s + r == r;
    } else {
      var (t, e) := s[0];
      RunsJoin(p, Apply(p, a, t, e), s[1..], b, r, c);
      assert (s + r)[1..] == s[1..] + r;
    }
  }

  lemma NoSteps(p: Setup, y: Sys)
    ensures Runs(p, y, [], y)
  {}

  lemma InvParts(p: Setup, y: Sys)
    requires Inv(p, y)
    ensures GoodSetup(p) && |y.nexts| == 1 && Hands(p, y)
  {}

  /** Every place a worker stands at offers a next step. */
  lemma NextStep(p: Setup, y: Sys, t: nat) returns (e: Ev)
    requires Inv(p, y) && t < |y.pcs| && !Idle(y.pcs[t])
    ensures GoodSetup(p) && |y.nexts| == 1 && Enabled(p, y, t, e)
  {
    InvParts(p, y);
    if y.pcs[t].Locking? {
      hide Inv, Hands, GoodSetup;
      e := Enter(seq(|y.seats|, _ => true), 0);
    } else {
      var g := y.pcs[t].g;
      assert Owning(y.pcs[t]);
      hide *;
      HeldHere(p, y, t, g);
      e := SeatStep(p, y, t, g);
    }
  }

  lemma SeatStep(p: Setup, y: Sys, t: nat, g: nat) returns (e: Ev)
    requires GoodSetup(p) && |y.nexts| == 1 && t < |y.pcs| && Owning(y.pcs[t]) && y.pcs[t].g == g && g < |y.seats|
    requires AtWork(p, y.pcs[t], y.seats[g])
    ensures Enabled(p, y, t, e)
  {
    match y.pcs[t]
    case Own(_) =>
      hide *;
      e := OwnStep(p, y, t, g);
    case Tried(_) =>
      TriedQuery(p, y.seats[g], g);
      var now := y.seats[g].need == [];
      hide GoodSetup, AtWork, Tracked;
      e := Ev.Rank(now, now, seq(|y.seats[g].q.cand|, _ => Missed));
    case Handing(_, read) =>
      hide GoodSetup, AtWork;
      var sorted := SP.SortedCopy(y.seats[g].q.cand);
      e := Hand(sorted);
  }

  /** Known pages or not, a seat taken is tried next. */
  lemma OwnStep(p: Setup, y: Sys, t: nat, g: nat) returns (e: Ev)
    requires GoodSetup(p) && |y.nexts| == 1 && t < |y.pcs| && y.pcs[t] == Own(g) && g < |y.seats| && AtWork(p, Own(g), y.seats[g])
    ensures Enabled(p, y, t, e)
    ensures var z := Apply(p, y, t, e); OnlyWorker(y, z, t) && z.pcs[t] == Tried(g) && z.finished == y.finished
  {
    hide *;
    if y.seats[g].need == [] {
      StartSeat(p, y.seats[g], None, g);
      StartShape(p, y, t, g);
      e := Ev.Start(None);
    } else {
      ResumeShape(p, y, t, g);
      e := Resume;
    }
  }

  lemma StartShape(p: Setup, y: Sys, t: nat, g: nat)
    requires GoodSetup(p) && |y.nexts| == 1 && t < |y.pcs| && y.pcs[t] == Own(g) && g < |y.seats| && y.seats[g].need == []
    requires y.seats[g].qi < |p.asks| && Closed(p.asks[y.seats[g].qi].index, y.seats[g].q)
    ensures Enabled(p, y, t, Ev.Start(None))
    ensures var z := Apply(p, y, t, Ev.Start(None)); OnlyWorker(y, z, t) && z.pcs[t] == Tried(g) && z.finished == y.finished
  {
    assert p.limit > 0;
    hide GoodSetup, Issued, Beam, Closed;
  }

  lemma ResumeShape(p: Setup, y: Sys, t: nat, g: nat)
    requires GoodSetup(p) && |y.nexts| == 1 && t < |y.pcs| && y.pcs[t] == Own(g) && g < |y.seats| && y.seats[g].need != []
    ensures Enabled(p, y, t, Resume)
    ensures var z := Apply(p, y, t, Resume); OnlyWorker(y, z, t) && z.pcs[t] == Tried(g) && z.finished == y.finished
  {
    hide GoodSetup;
  }

  lemma HeldHere(p: Setup, y: Sys, t: nat, g: nat)
    requires Inv(p, y) && t < |y.pcs| && Owning(y.pcs[t]) && y.pcs[t].g == g
    ensures GoodSetup(p) && g < |y.seats| && AtWork(p, y.pcs[t], y.seats[g])
  {
    assert Holds(y.pcs, t, g);
    HeldAt(p, y, t, g);
  }

  lemma TriedQuery(p: Setup, s: Seat, g: nat)
    requires GoodSetup(p) && AtWork(p, Tried(g), s)
    ensures s.qi < |p.asks| && Tracked(p, s) && s.st.Busy?
  {}

  lemma SameWorker(y: Sys, t: nat)
    requires t < |y.pcs|
    ensures OnlyWorker(y, y, t)
  {}

  lemma WorkerTwice(x: Sys, y: Sys, z: Sys, t: nat)
    requires OnlyWorker(x, y, t) && OnlyWorker(y, z, t)
    ensures OnlyWorker(x, z, t)
  {}

  lemma {:induction false} ToTop(p: Setup, y: Sys, t: nat) returns (trace: seq<(nat, Ev)>, z: Sys)
    requires Inv(p, y) && t < |y.pcs|
    ensures Runs(p, y, trace, z) && Inv(p, z) && OnlyWorker(y, z, t) && Idle(z.pcs[t])
    decreases if t < |y.pcs| then Steps(y.pcs[t]) else 0
  {
    hide *;
    SameWorker(y, t);
    if Idle(y.pcs[t]) {
      NoSteps(p, y);
      trace, z := [], y;
    } else {
      var e := NextStep(p, y, t);
      StepKeeps(p, y, t, e);
      StepDown(p, y, t, e);
      var y1 := Apply(p, y, t, e);
      var rest;
      rest, z := ToTop(p, y1, t);
      RunsCons(p, y, t, e, y1, rest, z);
      WorkerTwice(y, y1, z, t);
      trace := [(t, e)] + rest;
    }
  }

  ghost predicate CalmTo(y: Sys, n: nat) {
    n <= |y.pcs| && forall t :: 0 <= t < n ==> Idle(y.pcs[t])
  }

  lemma {:induction false} AllToTop(p: Setup, y: Sys, n: nat) returns (trace: seq<(nat, Ev)>, z: Sys)
    requires Inv(p, y) && CalmTo(y, n)
    ensures Runs(p, y, trace, z) && Inv(p, z) && |z.pcs| == |y.pcs| && |z.seats| == |y.seats| && CalmTo(z, |z.pcs|)
    decreases |y.pcs| - n
  {
    CalmSize(y, n);
    hide *;
    if n == |y.pcs| {
      NoSteps(p, y);
      trace, z := [], y;
    } else {
      var first, y1 := ToTop(p, y, n);
      CalmNext(y, y1, n);
      var rest;
      rest, z := AllToTop(p, y1, n + 1);
      RunsJoin(p, y, first, y1, rest, z);
      trace := first + rest;
    }
  }

  lemma CalmSize(y: Sys, n: nat)
    requires CalmTo(y, n)
    ensures n <= |y.pcs|
  {}

  lemma CalmNext(y: Sys, z: Sys, n: nat)
    requires CalmTo(y, n) && OnlyWorker(y, z, n) && Idle(z.pcs[n])
    ensures CalmTo(z, n + 1) && |z.pcs| == |y.pcs| && |z.seats| == |y.seats|
  {}

  // ------------------------------------------------------------ one query more

  /** Nobody holds a seat. */
  lemma NoneTaken(y: Sys)
    requires CalmTo(y, |y.pcs|)
    ensures forall g: nat :: !Taken(y.pcs, g)
  {
    forall t: nat, g: nat ensures !Holds(y.pcs, t, g) {}
  }

  /** Some query is left unanswered. */
  lemma OneOpen(p: Setup, y: Sys) returns (qi: nat)
    requires Inv(p, y) && y.finished < |p.asks|
    ensures qi < |p.asks| && qi !in y.results
  {
    BooksOf(p, y);
    hide *;
    assert |y.results| == |y.results.Keys|;
    qi := Absent(y.results.Keys, |p.asks|);
  }

  lemma Absent(m: set<nat>, n: nat) returns (x: nat)
    requires |m| < n
    ensures x < n && x !in m
  {
    if forall x: nat :: x < n ==> x in m { AllIn(m, n); }
    x :| x < n && x !in m;
  }

  lemma {:induction false} AllIn(m: set<nat>, n: nat)
    requires forall x: nat :: x < n ==> x in m
    ensures |m| >= n
  {
    if n > 0 {
      AllIn(m - {n - 1}, n - 1);
    }
  }

  /** With queries unanswered, seats, and every worker at the top, admitting leaves a seat to be taken. */
  lemma SeatToTake(p: Setup, y: Sys)
    requires Inv(p, y) && CalmTo(y, |y.pcs|) && y.finished < |p.asks| && |y.seats| > 0
    requires y.nexts[0] >= |p.asks| || forall g :: 0 <= g < |y.seats| ==> !y.seats[g].st.Empty?
    ensures exists g :: 0 <= g < |y.seats| && (y.seats[g].st.Ready? || y.seats[g].st.Wait?)
  {
    NoneTaken(y);
    var g: nat := 0;
    if y.nexts[0] >= |p.asks| {
      var qi := OneOpen(p, y);
      ClaimedSeated(p, y, qi);
      g :| On(y.seats, g, qi);
    }
    assert g < |y.seats| && !y.seats[g].st.Empty? && !Taken(y.pcs, g);
    hide Booked, AnswersOk, AtWork;
    assert Free(p, y.seats[g]);
  }

  lemma ClaimedSeated(p: Setup, y: Sys, qi: nat)
    requires Inv(p, y) && y.nexts[0] >= |p.asks| && qi < |p.asks| && qi !in y.results
    ensures Seated(y.seats, qi)
  {
    hide Hands, AnswersOk;
    assert LaneOf(qi, 1) == 0;
  }

  /** A worker takes a seat. */
  lemma TakeOne(p: Setup, y: Sys, t: nat) returns (y1: Sys, y2: Sys, e: Ev, g: nat)
    requires Inv(p, y) && CalmTo(y, |y.pcs|) && t < |y.pcs| && y.pcs[t].Top? && y.finished < |p.asks| && |y.seats| > 0
    ensures GoodSetup(p) && |y.nexts| == 1 && Enabled(p, y, t, Look) && y1 == Apply(p, y, t, Look)
    ensures |y1.nexts| == 1 && t < |y1.pcs| && Enabled(p, y1, t, e) && y2 == Apply(p, y1, t, e)
    ensures Inv(p, y2) && OnlyWorker(y, y2, t) && y2.pcs[t] == Own(g) && y2.finished == y.finished
  {
    InvParts(p, y);
    hide Inv, Hands, GoodSetup, CalmTo, Admitted, NeedOf, RankOnce, Outcome;
    y1 := Apply(p, y, t, Look);
    StepKeeps(p, y, t, Look);
    InvParts(p, y1);
    var cov := seq(|y1.seats|, _ => true);
    e := Enter(cov, 0);
    StepKeeps(p, y1, t, e);
    y2 := Apply(p, y1, t, e);
    g := Entered(p, y, y1, t, cov);
  }

  lemma Entered(p: Setup, y: Sys, y1: Sys, t: nat, cov: seq<bool>) returns (g: nat)
    requires Inv(p, y) && CalmTo(y, |y.pcs|) && y.finished < |p.asks| && |y.seats| > 0
    requires GoodSetup(p) && t < |y.pcs| && |y.nexts| == 1 && y1 == Go(y, t, Locking) && cov == seq(|y.seats|, _ => true)
    ensures Enabled(p, y1, t, Enter(cov, 0))
    ensures var z := Apply(p, y1, t, Enter(cov, 0)); z.pcs == y.pcs[t := Own(g)] && z.finished == y.finished && |z.seats| == |y.seats|
  {
    hide *;
    AdmitKeeps(p, y);
    var v := y.(seats := Admit(p, y.seats, y.nexts).0, nexts := Admit(p, y.seats, y.nexts).1);
    SameCalm(y, v);
    SeatToTake(p, v);
    g := PickShape(p, y, y1, t, cov);
  }

  lemma SameCalm(y: Sys, z: Sys)
    requires CalmTo(y, |y.pcs|) && z.pcs == y.pcs
    ensures CalmTo(z, |z.pcs|)
  {}

  /** With a seat to take among those admitted, the worker that enters takes one. */
  lemma PickShape(p: Setup, y: Sys, y1: Sys, t: nat, cov: seq<bool>) returns (g: nat)
    requires GoodSetup(p) && t < |y.pcs| && |y.nexts| == 1 && y1 == Go(y, t, Locking) && cov == seq(|y.seats|, _ => true)
    requires var seats := Admit(p, y.seats, y.nexts).0; exists g :: 0 <= g < |seats| && (seats[g].st.Ready? || seats[g].st.Wait?)
    ensures Enabled(p, y1, t, Enter(cov, 0))
    ensures var z := Apply(p, y1, t, Enter(cov, 0)); z.pcs == y.pcs[t := Own(g)] && z.finished == y.finished && |z.seats| == |y.seats|
  {
    hide Admit, GoodSetup;
    var seats := Admit(p, y.seats, y.nexts).0;
    var g0: nat :| g0 < |seats| && (seats[g0].st.Ready? || seats[g0].st.Wait?);
    assert Statuses(seats)[g0] == seats[g0].st && cov[g0];
    hide Statuses;
    g := ContBatch.Pick(Statuses(seats), cov, 0).value;
  }

  /** The seat taken is finished: its pages are known, its reads come through, its query is answered. */
  lemma FinishOne(p: Setup, y: Sys, t: nat, g: nat) returns (trace: seq<(nat, Ev)>, z: Sys)
    requires Inv(p, y) && t < |y.pcs| && y.pcs[t] == Own(g) && GoodSetup(p) && forall qi: nat :: qi < |p.asks| ==> Scorable(p, qi)
    ensures Runs(p, y, trace, z) && Inv(p, z) && OnlyWorker(y, z, t) && z.pcs[t].Top? && z.finished == y.finished + 1
  {
    InvParts(p, y);
    hide *;
    var e1, y1 := ToTried(p, y, t, g);
    var e2, y2 := RankAll(p, y1, t, g);
    var e3, y3 := HandDone(p, y2, t, g);
    z := y3;
    NoSteps(p, z);
    RunsCons(p, y2, t, e3, y3, [], z);
    RunsCons(p, y1, t, e2, y2, [(t, e3)] + [], z);
    RunsCons(p, y, t, e1, y1, [(t, e2)] + ([(t, e3)] + []), z);
    trace := [(t, e1)] + ([(t, e2)] + ([(t, e3)] + []));
    WorkerTwice(y, y1, y2, t);
    WorkerTwice(y, y2, y3, t);
  }

  lemma ToTried(p: Setup, y: Sys, t: nat, g: nat) returns (e: Ev, z: Sys)
    requires Inv(p, y) && GoodSetup(p) && |y.nexts| == 1 && t < |y.pcs| && y.pcs[t] == Own(g)
    ensures Enabled(p, y, t, e) && z == Apply(p, y, t, e) && Inv(p, z) && |z.nexts| == 1
    ensures OnlyWorker(y, z, t) && z.pcs[t] == Tried(g) && z.finished == y.finished
  {
    hide *;
    HeldHere(p, y, t, g);
    e := OwnStep(p, y, t, g);
    z := Apply(p, y, t, e);
    StepKeeps(p, y, t, e);
    InvParts(p, z);
  }

  lemma RankAll(p: Setup, y: Sys, t: nat, g: nat) returns (e: Ev, z: Sys)
    requires Inv(p, y) && GoodSetup(p) && |y.nexts| == 1 && t < |y.pcs| && y.pcs[t] == Tried(g)
    requires forall qi: nat :: qi < |p.asks| ==> Scorable(p, qi)
    ensures Enabled(p, y, t, e) && z == Apply(p, y, t, e) && Inv(p, z) && |z.nexts| == 1
    ensures OnlyWorker(y, z, t) && z.pcs[t].Handing? && z.pcs[t].g == g && z.finished == y.finished
    ensures g < |z.seats| && z.seats[g].st.Done?
  {
    HeldHere(p, y, t, g);
    var s := y.seats[g];
    TriedQuery(p, s, g);
    SeatReadable(p, s);
    hide *;
    var readings := GoodReadings(p, s.qi, s.q.cand);
    e := Ev.Rank(true, true, readings);
    RankShape(p, y, t, g, readings);
    z := Apply(p, y, t, e);
    StepKeeps(p, y, t, e);
    InvParts(p, z);
  }

  lemma SeatReadable(p: Setup, s: Seat)
    requires GoodSetup(p) && Tracked(p, s) && s.qi < |p.asks| && Scorable(p, s.qi)
    ensures AllReadable(p, s.q.cand)
  {
    hide AllReadable, Serial, GoodSetup;
    SameReadable(p, s.q.cand, Serial(p, s.qi).cand);
  }

  lemma RankShape(p: Setup, y: Sys, t: nat, g: nat, readings: seq<Reading>)
    requires GoodSetup(p) && |y.nexts| == 1 && t < |y.pcs| && y.pcs[t] == Tried(g) && g < |y.seats| && y.seats[g].qi < |p.asks|
    requires |readings| == |y.seats[g].q.cand| && (forall i :: 0 <= i < |readings| ==> FromValid(p.cache, readings[i]))
    requires var got := Scores(p, y.seats[g].qi, y.seats[g].q.cand, readings); Got(got, |got|)
    ensures Enabled(p, y, t, Ev.Rank(true, true, readings))
    ensures var z := Apply(p, y, t, Ev.Rank(true, true, readings));
      && OnlyWorker(y, z, t) && z.pcs[t] == Handing(g, readings) && z.finished == y.finished && g < |z.seats| && z.seats[g].st.Done?
  {
    hide GoodSetup, Scores, FromValid, Got, Ranked;
  }

  lemma HandDone(p: Setup, y: Sys, t: nat, g: nat) returns (e: Ev, z: Sys)
    requires Inv(p, y) && GoodSetup(p) && |y.nexts| == 1 && t < |y.pcs| && y.pcs[t].Handing? && y.pcs[t].g == g
    requires g < |y.seats| && y.seats[g].st.Done?
    ensures Enabled(p, y, t, e) && z == Apply(p, y, t, e) && Inv(p, z) && |z.nexts| == 1
    ensures OnlyWorker(y, z, t) && z.pcs[t].Top? && z.finished == y.finished + 1
  {
    hide *;
    var sorted := SP.SortedCopy(y.seats[g].q.cand);
    HandShape(p, y, t, g, sorted);
    e := Hand(sorted);
    z := Apply(p, y, t, e);
    StepKeeps(p, y, t, e);
    InvParts(p, z);
  }

  lemma HandShape(p: Setup, y: Sys, t: nat, g: nat, sorted: seq<Cand>)
    requires GoodSetup(p) && |y.nexts| == 1 && t < |y.pcs| && y.pcs[t].Handing? && y.pcs[t].g == g && g < |y.seats| && y.seats[g].st.Done?
    requires SortOf(y.seats[g].q.cand, sorted)
    ensures Enabled(p, y, t, Hand(sorted))
    ensures var z := Apply(p, y, t, Hand(sorted)); OnlyWorker(y, z, t) && z.pcs[t].Top? && z.finished == y.finished + 1
  {
    hide GoodSetup, SortOf, Outcome;
  }

  /** Every query can be answered: there are workers and seats, and every candidate can be read. */
  ghost predicate Answerable(p: Setup, y: Sys) {
    GoodSetup(p) && (|p.asks| > 0 ==> |y.pcs| > 0 && |y.seats| > 0 && forall qi: nat :: qi < |p.asks| ==> Scorable(p, qi))
  }

  lemma {:induction false} AnswerAll(p: Setup, y: Sys) returns (trace: seq<(nat, Ev)>, z: Sys)
    requires Inv(p, y) && CalmTo(y, |y.pcs|) && Answerable(p, y)
    ensures Runs(p, y, trace, z) && Inv(p, z) && CalmTo(z, |z.pcs|) && z.finished >= |p.asks|
    decreases |p.asks| - y.finished
  {
    hide *;
    if y.finished >= |p.asks| {
      NoSteps(p, y);
      trace, z := [], y;
    } else {
      var first, y3 := AnswerOne(p, y);
      var rest;
      rest, z := AnswerAll(p, y3);
      RunsJoin(p, y, first, y3, rest, z);
      trace := first + rest;
    }
  }

  lemma AnswerOne(p: Setup, y: Sys) returns (trace: seq<(nat, Ev)>, z: Sys)
    requires Inv(p, y) && CalmTo(y, |y.pcs|) && Answerable(p, y) && y.finished < |p.asks|
    ensures Runs(p, y, trace, z) && Inv(p, z) && CalmTo(z, |z.pcs|) && Answerable(p, z) && z.finished == y.finished + 1
  {
    AnswerableParts(p, y);
    hide *;
    StillHere(p, y, 0);
    var y1, y2, e, g := TakeOne(p, y, 0);
    WorkerCount(y, y2, 0);
    var more, y3 := FinishOne(p, y2, 0, g);
    CalmAgain(y, y2, y3, 0);
    RunsCons(p, y1, 0, e, y2, more, y3);
    RunsCons(p, y, 0, Look, y1, [(0, e)] + more, y3);
    trace, z := [(0, Look)] + ([(0, e)] + more), y3;
    StillAnswerable(p, y, z);
  }

  lemma AnswerableParts(p: Setup, y: Sys)
    requires Answerable(p, y) && |p.asks| > 0
    ensures GoodSetup(p) && |y.pcs| > 0 && |y.seats| > 0 && forall qi: nat :: qi < |p.asks| ==> Scorable(p, qi)
  {}

  lemma StillAnswerable(p: Setup, y: Sys, z: Sys)
    requires Answerable(p, y) && |z.pcs| == |y.pcs| && |z.seats| == |y.seats|
    ensures Answerable(p, z)
  {
    hide Scorable, GoodSetup;
  }

  lemma WorkerCount(y: Sys, z: Sys, t: nat)
    requires OnlyWorker(y, z, t)
    ensures |z.pcs| == |y.pcs| && t < |z.pcs|
  {}

  lemma StillHere(p: Setup, y: Sys, t: nat)
    requires Inv(p, y) && CalmTo(y, |y.pcs|) && y.finished < |p.asks| && t < |y.pcs|
    ensures y.pcs[t].Top?
  {
    hide Hands, Booked, AnswersOk;
    assert Idle(y.pcs[t]);
  }

  lemma CalmAgain(y: Sys, y2: Sys, y3: Sys, t: nat)
    requires CalmTo(y, |y.pcs|) && OnlyWorker(y, y2, t) && OnlyWorker(y2, y3, t) && y3.pcs[t].Top?
    ensures CalmTo(y3, |y3.pcs|) && |y3.pcs| == |y.pcs| && |y3.seats| == |y.seats|
  {}

  /** Every query is counted as answered, and every worker has left. */
  ghost predicate AllDone(p: Setup, y: Sys) {
    y.finished >= |p.asks| && forall t :: 0 <= t < |y.pcs| ==> y.pcs[t].Left?
  }

  ghost predicate LeftTo(y: Sys, n: nat) {
    n <= |y.pcs| && forall t :: 0 <= t < n ==> y.pcs[t].Left?
  }

  /** Everything answered, every worker looks once more and leaves. */
  lemma {:induction false} AllLeave(p: Setup, y: Sys, n: nat) returns (trace: seq<(nat, Ev)>, z: Sys)
    requires Inv(p, y) && CalmTo(y, |y.pcs|) && y.finished >= |p.asks| && LeftTo(y, n)
    ensures Runs(p, y, trace, z) && AllDone(p, z)
    decreases |y.pcs| - n
  {
    LeftMore(p, y, n);
    hide *;
    if n == |y.pcs| {
      NoSteps(p, y);
      trace, z := [], y;
    } else if y.pcs[n].Left? {
      trace, z := AllLeave(p, y, n + 1);
    } else {
      var y1 := LeaveOne(p, y, n);
      LeftNext(y, y1, n);
      var rest;
      rest, z := AllLeave(p, y1, n + 1);
      RunsCons(p, y, n, Look, y1, rest, z);
      trace := [(n, Look)] + rest;
    }
  }

  lemma LeftMore(p: Setup, y: Sys, n: nat)
    requires CalmTo(y, |y.pcs|) && y.finished >= |p.asks| && LeftTo(y, n)
    ensures n <= |y.pcs| && (n == |y.pcs| ==> AllDone(p, y))
    ensures n < |y.pcs| ==> if y.pcs[n].Left? then LeftTo(y, n + 1) else y.pcs[n].Top?
  {
    if n < |y.pcs| { assert Idle(y.pcs[n]); }
  }

  lemma LeftNext(y: Sys, z: Sys, n: nat)
    requires LeftTo(y, n) && n < |y.pcs| && z.pcs == y.pcs[n := Left]
    ensures LeftTo(z, n + 1)
  {}

  lemma LeaveOne(p: Setup, y: Sys, n: nat) returns (z: Sys)
    requires Inv(p, y) && CalmTo(y, |y.pcs|) && y.finished >= |p.asks| && n < |y.pcs| && y.pcs[n].Top?
    ensures GoodSetup(p) && |y.nexts| == 1 && Enabled(p, y, n, Look) && z == Apply(p, y, n, Look)
    ensures Inv(p, z) && CalmTo(z, |z.pcs|) && z.finished == y.finished && |z.pcs| == |y.pcs| && z.pcs == y.pcs[n := Left]
  {
    InvParts(p, y);
    hide Inv, Hands, GoodSetup;
    z := Apply(p, y, n, Look);
    StepKeeps(p, y, n, Look);
    assert z == Go(y, n, Left);
  }

  // ------------------------------------------------------------ and only then

  /** Without workers or seats no answer is ever counted. */
  lemma {:induction false} NobodyThere(p: Setup, y: Sys, trace: seq<(nat, Ev)>, z: Sys)
    requires Runs(p, y, trace, z)
    ensures |z.pcs| == |y.pcs| && |z.seats| == |y.seats|
    ensures |y.pcs| == 0 || |y.seats| == 0 ==> z.finished == y.finished
    decreases |trace|
  {
    hide GoodSetup;
    if trace != [] {
      var (t, e) := trace[0];
      StepSizes(p, y, t, e);
      hide Apply, Enabled;
      NobodyThere(p, Apply(p, y, t, e), trace[1..], z);
    }
  }

  lemma StepSizes(p: Setup, y: Sys, t: nat, e: Ev)
    requires GoodSetup(p) && t < |y.pcs| && |y.nexts| == 1 && Enabled(p, y, t, e)
    ensures var z := Apply(p, y, t, e); |z.pcs| == |y.pcs| && |z.seats| == |y.seats| && (|y.seats| == 0 ==> z.finished == y.finished)
  {
    hide Admit, GoodSetup, Scores, RankedSeat, Issued, Beam, Outcome;
  }

  /** An answer came from a rank that read every candidate. */
  lemma AnsweredScorable(p: Setup, qi: nat, readings: seq<Reading>, out: seq<nat>)
    requires GoodSetup(p) && qi < |p.asks| && Chosen(p, qi, readings, out)
    ensures Scorable(p, qi)
  {
    var score: seq<real> :| |score| == |p.vecOff| && Carries(p, qi, Rescored(p, qi, score), readings) && ByScore(p, qi, score, out);
    var r := Rescored(p, qi, score);
    SerialInRange(p, qi, Serial(p, qi).cand);
    assert Ids(r) == Ids(Serial(p, qi).cand);
    hide Serial, ByScore, Rescored, GoodSetup, BytesRead, FromValid;
    forall i: nat | i < |r| ensures r[i].id < |p.vecOff| && CanRead(p.cache, p.vecOff[r[i].id], p.vecBytes) {
      assert Scores(p, qi, r, readings)[i].Some?;
      ScoreAt(p, qi, r, readings, i);
      assert FromValid(p.cache, readings[i]);
    }
    SameReadable(p, r, Serial(p, qi).cand);
  }

  lemma DoneAnswerable(p: Setup, y: Sys, trace: seq<(nat, Ev)>, z: Sys)
    requires Init0(p, y) && Runs(p, y, trace, z) && z.finished >= |p.asks|
    ensures Answerable(p, y)
  {
    NobodyThere(p, y, trace, z);
    CountedMeansDone(p, y, trace, z);
    assert y.finished == 0 && GoodSetup(p);
    hide Runs, Init0, GoodSetup, Scorable;
    forall qi: nat | qi < |p.asks| ensures Scorable(p, qi) {
      SharedInvariance(p, y, trace, z, qi);
      AnsweredScorable(p, qi, z.read[qi], z.results[qi]);
    }
  }

  /**
   From every state of every run: some run goes on until every query is
   answered and every worker has left, exactly when there are workers and seats
   for whatever queries there are, and every candidate's vector can be read.
   */
  lemma EndsIff(p: Setup, y: Sys, trace: seq<(nat, Ev)>, z: Sys)
    requires Init0(p, y) && Runs(p, y, trace, z)
    ensures (exists more, w :: Runs(p, z, more, w) && AllDone(p, w)) <==> Answerable(p, y)
  {
    AnyRun(p, y, trace, z);
    NobodyThere(p, y, trace, z);
    hide *;
    if Answerable(p, y) {
      var more, w := CanEnd(p, y, z);
      assert Runs(p, z, more, w) && AllDone(p, w);
    }
    if more, w :| Runs(p, z, more, w) && AllDone(p, w) { EndedAnswerable(p, y, trace, z, more, w); }
  }

  lemma EndedAnswerable(p: Setup, y: Sys, trace: seq<(nat, Ev)>, z: Sys, more: seq<(nat, Ev)>, w: Sys)
    requires Init0(p, y) && Runs(p, y, trace, z) && Runs(p, z, more, w) && AllDone(p, w)
    ensures Answerable(p, y)
  {
    hide *;
    RunsJoin(p, y, trace, z, more, w);
    AllCounted(p, w);
    DoneAnswerable(p, y, trace + more, w);
  }

  lemma AllCounted(p: Setup, y: Sys)
    requires AllDone(p, y)
    ensures y.finished >= |p.asks|
  {}

  lemma CanEnd(p: Setup, y: Sys, z: Sys) returns (trace: seq<(nat, Ev)>, w: Sys)
    requires Inv(p, z) && |z.pcs| == |y.pcs| && |z.seats| == |y.seats| && Answerable(p, y)
    ensures Runs(p, z, trace, w) && AllDone(p, w)
  {
    assert CalmTo(z, 0);
    hide Inv, Runs, CalmTo, Scorable;
    var a, z1 := AllToTop(p, z, 0);
    var b, z2 := AnswerAll(p, z1);
    var c;
    assert LeftTo(z2, 0);
    c, w := AllLeave(p, z2, 0);
    RunsJoin(p, z1, b, z2, c, w);
    RunsJoin(p, z, a, z1, b + c, w);
    trace := a + (b + c);
  }
}
