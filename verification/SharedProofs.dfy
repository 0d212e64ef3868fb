/** What every interleaving of the shared scheduler's workers keeps, and what that gives. */
module SharedProofs {
  import opened Common
  import opened Counting
  import opened ContBatch
  import opened BeamSpec
  import BeamProofs
  import opened Query
  import opened Seats
  import opened Ledger
  import opened SharedReads
  import opened SharedScheduler

  // ------------------------------------------------------------ who holds what

  /** A step that answers nothing. */
  lemma SameAnswers(p: Setup, y: Sys, y': Sys)
    requires GoodSetup(p) && AnswersOk(p, y) && y'.results == y.results && y'.read == y.read && y'.finished == y.finished
    ensures AnswersOk(p, y')
  {
    hide Chosen;
  }

  /** A worker moves on with the seat it holds, or gives it back. */
  lemma HandsMove(p: Setup, y: Sys, y': Sys, t: nat, g: nat)
    requires GoodSetup(p) && Hands(p, y) && Holds(y.pcs, t, g) && g < |y.seats|
    requires |y'.seats| == |y.seats| && |y'.pcs| == |y.pcs|
    requires y'.seats == y.seats[g := y'.seats[g]] && y'.pcs == y.pcs[t := y'.pcs[t]]
    requires if Owning(y'.pcs[t]) then y'.pcs[t].g == g && AtWork(p, y'.pcs[t], y'.seats[g]) else Free(p, y'.seats[g])
    ensures Hands(p, y')
  {
    hide AtWork, Free;
    forall u: nat, h: nat ensures Holds(y'.pcs, u, h) <==> if u == t then Owning(y'.pcs[t]) && h == g else Holds(y.pcs, u, h) {}
    if Owning(y'.pcs[t]) { assert Holds(y'.pcs, t, g); }
    forall h: nat | h < |y'.seats| && !Taken(y'.pcs, h) ensures Free(p, y'.seats[h]) {
      if h != g {
        forall u: nat ensures !Holds(y.pcs, u, h) { assert !Holds(y'.pcs, u, h); }
      }
    }
  }

  /** A seat in use by nobody: its state says so. */
  lemma FreeByState(p: Setup, y: Sys, g: nat)
    requires GoodSetup(p) && Hands(p, y) && g < |y.seats| && !y.seats[g].st.Busy? && !y.seats[g].st.Done?
    ensures !Taken(y.pcs, g) && Free(p, y.seats[g])
  {
    forall t: nat ensures !Holds(y.pcs, t, g) {}
  }

  /** A worker with empty hands takes a seat out of the pool. */
  lemma HandsTake(p: Setup, y: Sys, y': Sys, t: nat, g: nat)
    requires GoodSetup(p) && Hands(p, y) && t < |y.pcs| && !Owning(y.pcs[t]) && g < |y.seats|
    requires !Taken(y.pcs, g)
    requires |y'.seats| == |y.seats|
    requires y'.seats == y.seats[g := y'.seats[g]] && y'.pcs == y.pcs[t := Own(g)] && AtWork(p, Own(g), y'.seats[g])
    ensures Hands(p, y')
  {
    hide AtWork, Free;
    forall u: nat, h: nat ensures Holds(y'.pcs, u, h) <==> if u == t then h == g else Holds(y.pcs, u, h) {}
    forall h: nat | h < |y'.seats| && !Taken(y'.pcs, h) ensures Free(p, y'.seats[h]) {
      assert Holds(y'.pcs, t, g);
      forall u: nat ensures !Holds(y.pcs, u, h) { assert !Holds(y'.pcs, u, h); }
    }
  }

  /** A worker with empty hands moves on with empty hands. */
  lemma HandsIdle(p: Setup, y: Sys, y': Sys, t: nat)
    requires GoodSetup(p) && Hands(p, y) && t < |y.pcs| && !Owning(y.pcs[t])
    requires |y'.pcs| == |y.pcs|
    requires y'.seats == y.seats && y'.pcs == y.pcs[t := y'.pcs[t]] && !Owning(y'.pcs[t])
    ensures Hands(p, y')
  {
    hide AtWork, Free;
    forall u: nat, h: nat ensures Holds(y'.pcs, u, h) <==> Holds(y.pcs, u, h) {}
    forall h: nat | h < |y'.seats| && !Taken(y'.pcs, h) ensures Free(p, y'.seats[h]) {
      forall u: nat ensures !Holds(y.pcs, u, h) { assert !Holds(y'.pcs, u, h); }
    }
  }

  /** A new query fills a seat of the pool. */
  lemma HandsFill(p: Setup, y: Sys, y': Sys, g: nat)
    requires GoodSetup(p) && Hands(p, y) && g < |y.seats| && !Taken(y.pcs, g)
    requires |y'.seats| == |y.seats|
    requires y' == y.(seats := y.seats[g := y'.seats[g]], nexts := y'.nexts) && Free(p, y'.seats[g])
    ensures Hands(p, y')
  {
    hide AtWork, Free;
    forall u: nat, h: nat | Holds(y.pcs, u, h) ensures h != g {}
  }

  // ------------------------------------------------------------ steps

  /** `admit` keeps the pool and the ledger, and stops only with no empty seat or no query left. */
  lemma {:induction false} AdmitKeeps(p: Setup, y: Sys)
    requires Inv(p, y)
    ensures var r := Admit(p, y.seats, y.nexts);
      && Inv(p, y.(seats := r.0, nexts := r.1))
      && (r.1[0] >= |p.asks| || forall g :: 0 <= g < |r.0| ==> !r.0[g].st.Empty?)
    decreases |p.asks| - y.nexts[0]
  {
    hide AnswersOk, AtWork, Tracked;
    var st := Statuses(y.seats);
    var cov := seq(|y.seats|, _ => false);
    if y.nexts[0] < |p.asks| {
      match First(Vacant, st, cov)
      case None =>
        assert forall g :: 0 <= g < |y.seats| ==> !Is(Vacant, st[g], cov[g]) && st[g] == y.seats[g].st;
      case Some(g) =>
        var y1 := y.(seats := y.seats[g := NewSeat(p, y.nexts[0])], nexts := Take(y.nexts, 0));
        AdmitOne(p, y, y1, g);
        hide Inv;
        AdmitKeeps(p, y1);
    }
    assert y.(seats := y.seats, nexts := y.nexts) == y;
  }

  lemma AdmitOne(p: Setup, y: Sys, y1: Sys, g: nat)
    requires Inv(p, y) && y.nexts[0] < |p.asks| && g < |y.seats| && y.seats[g].st.Empty?
    requires y1 == y.(seats := y.seats[g := NewSeat(p, y.nexts[0])], nexts := Take(y.nexts, 0))
    ensures Inv(p, y1)
  {
    hide AnswersOk, Booked;
    FreeByState(p, y, g);
    HandsFill(p, y, y1, g);
    SameAnswers(p, y, y1);
    BookClaim(|p.asks|, y.seats, y.results, y.nexts, 0, g, NewSeat(p, y.nexts[0]));
  }

  lemma TakenSeat(p: Setup, s: Seat, g: nat)
    requires GoodSetup(p) && Free(p, s) && (s.st.Ready? || s.st.Wait?)
    ensures AtWork(p, Own(g), s.(st := Busy))
  {
    hide NeedOf, Serial;
  }

  lemma EnterKeeps(p: Setup, y: Sys, t: nat, cov: seq<bool>, start: nat)
    requires Inv(p, y) && t < |y.pcs| && Enabled(p, y, t, Enter(cov, start))
    ensures Inv(p, Apply(p, y, t, Enter(cov, start)))
  {
    hide *;
    EnterReady(p, y, t, cov, start);
    AdmitKeeps(p, y);
    var y1 := EnterIs(p, y, t, cov, start);
    if Apply(p, y, t, Enter(cov, start)) == Go(y1, t, Top) {
      IdleKeeps(p, y1, t, Top);
    } else {
      var g :| 0 <= g < |y1.seats| && (y1.seats[g].st.Ready? || y1.seats[g].st.Wait?) && Apply(p, y, t, Enter(cov, start)) == Took(y1, t, g);
      TakeKeeps(p, y1, t, g);
    }
  }

  lemma EnterReady(p: Setup, y: Sys, t: nat, cov: seq<bool>, start: nat)
    requires Inv(p, y) && t < |y.pcs| && Enabled(p, y, t, Enter(cov, start))
    ensures GoodSetup(p) && |y.nexts| == 1
  {
    hide Hands, AnswersOk, Booked, GoodSetup;
  }

  function Took(y: Sys, t: nat, g: nat): Sys
    requires t < |y.pcs| && g < |y.seats|
  {
    Go(SharedScheduler.Put(y, g, y.seats[g].(st := Busy)), t, Own(g))
  }

  lemma EnterIs(p: Setup, y: Sys, t: nat, cov: seq<bool>, start: nat) returns (y1: Sys)
    requires GoodSetup(p) && |y.nexts| == 1 && t < |y.pcs| && Enabled(p, y, t, Enter(cov, start))
    ensures var r := Admit(p, y.seats, y.nexts); y1 == y.(seats := r.0, nexts := r.1)
    ensures y1.pcs[t].Locking? && !Owning(y1.pcs[t]) && !Owning(Top)
    ensures var z := Apply(p, y, t, Enter(cov, start));
      z == Go(y1, t, Top) || exists g :: 0 <= g < |y1.seats| && (y1.seats[g].st.Ready? || y1.seats[g].st.Wait?) && z == Took(y1, t, g)
  {
    hide Admit, GoodSetup;
    var (seats, nexts) := Admit(p, y.seats, y.nexts);
    y1 := y.(seats := seats, nexts := nexts);
  }

  /** A worker with empty hands moves on, and does not leave yet. */
  lemma IdleKeeps(p: Setup, y: Sys, t: nat, pc: Pc)
    requires Inv(p, y) && t < |y.pcs| && !Owning(y.pcs[t]) && !Owning(pc) && !pc.Left?
    ensures Inv(p, Go(y, t, pc))
  {
    hide Hands, AnswersOk, Booked, GoodSetup;
    HandsIdle(p, y, Go(y, t, pc), t);
    SameAnswers(p, y, Go(y, t, pc));
  }

  lemma TakeKeeps(p: Setup, y: Sys, t: nat, g: nat)
    requires Inv(p, y) && t < |y.pcs| && y.pcs[t].Locking? && g < |y.seats| && (y.seats[g].st.Ready? || y.seats[g].st.Wait?)
    ensures Inv(p, Took(y, t, g))
  {
    FreeByState(p, y, g);
    TakenSeat(p, y.seats[g], g);
    hide Hands, AnswersOk, AtWork, Free, Booked, GoodSetup;
    var y2 := Took(y, t, g);
    HandsTake(p, y, y2, t, g);
    SameAnswers(p, y, y2);
    BookMove(|p.asks|, y.seats, y.results, y.nexts, g, y2.seats[g]);
  }

  /** A step that only moves one held seat. */
  lemma HeldMove(p: Setup, y: Sys, y': Sys, t: nat, g: nat)
    requires Inv(p, y) && t < |y.pcs| && Holds(y.pcs, t, g) && g < |y.seats|
    requires |y'.seats| == |y.seats| && |y'.pcs| == |y.pcs|
    requires y' == y.(seats := y.seats[g := y'.seats[g]], pcs := y.pcs[t := y'.pcs[t]])
    requires if Owning(y'.pcs[t]) then y'.pcs[t].g == g && AtWork(p, y'.pcs[t], y'.seats[g]) else Free(p, y'.seats[g]) && !y'.pcs[t].Left?
    requires !y.seats[g].st.Empty? && !y'.seats[g].st.Empty? && y'.seats[g].qi == y.seats[g].qi
    ensures Inv(p, y')
  {
    hide Hands, AnswersOk, AtWork, Free, Booked, GoodSetup;
    HandsMove(p, y, y', t, g);
    SameAnswers(p, y, y');
    BookMove(|p.asks|, y.seats, y.results, y.nexts, g, y'.seats[g]);
  }

  lemma StartSeat(p: Setup, s: Seat, tok: Option<nat>, g: nat)
    requires GoodSetup(p) && AtWork(p, Own(g), s) && s.need == []
    ensures s.qi < |p.asks| && Closed(p.asks[s.qi].index, s.q) && !s.st.Empty?
    ensures var r := Issued(p, s.(q := Beam(p.asks[s.qi].index, p.limit, p.iters, s.q)), tok); !r.st.Empty? && r.qi == s.qi
    ensures AtWork(p, Tried(g), Issued(p, s.(q := Beam(p.asks[s.qi].index, p.limit, p.iters, s.q)), tok))
  {
    BeamProofs.InitKeeps(p.asks[s.qi].index, p.limit, p.asks[s.qi].entry);
    hide NeedOf, AllPages;
  }

  lemma StartKeeps(p: Setup, y: Sys, t: nat, tok: Option<nat>)
    requires Inv(p, y) && t < |y.pcs| && Enabled(p, y, t, Start(tok))
    ensures Inv(p, Apply(p, y, t, Start(tok)))
  {
    hide *;
    var g := StartIs(p, y, t, tok);
    HeldAt(p, y, t, g);
    StartSeat(p, y.seats[g], tok, g);
    HeldMove(p, y, Apply(p, y, t, Start(tok)), t, g);
  }

  lemma StartIs(p: Setup, y: Sys, t: nat, tok: Option<nat>) returns (g: nat)
    requires Inv(p, y) && t < |y.pcs| && Enabled(p, y, t, Start(tok))
    ensures GoodSetup(p) && |y.nexts| == 1 && g < |y.seats| && y.pcs[t] == Own(g) && Holds(y.pcs, t, g) && y.seats[g].need == []
    ensures p.limit > 0 && y.seats[g].qi < |p.asks| && Closed(p.asks[y.seats[g].qi].index, y.seats[g].q)
    ensures var y', s := Apply(p, y, t, Start(tok)), y.seats[g];
      && Owning(Tried(g)) && |y'.seats| == |y.seats| && |y'.pcs| == |y.pcs| && y'.pcs[t] == Tried(g)
      && y'.seats[g] == Issued(p, s.(q := Beam(p.asks[s.qi].index, p.limit, p.iters, s.q)), tok)
      && y' == y.(seats := y.seats[g := y'.seats[g]], pcs := y.pcs[t := y'.pcs[t]])
  {
    hide Hands, AnswersOk, Booked, Issued, Beam, Closed;
    g := y.pcs[t].g;
  }

  lemma ResumeKeeps(p: Setup, y: Sys, t: nat)
    requires Inv(p, y) && t < |y.pcs| && Enabled(p, y, t, Resume)
    ensures Inv(p, Apply(p, y, t, Resume))
  {
    hide *;
    var g := ResumeIs(p, y, t);
    HeldAt(p, y, t, g);
    ResumeSeat(p, y.seats[g], g);
    HeldMove(p, y, Apply(p, y, t, Resume), t, g);
  }

  lemma ResumeIs(p: Setup, y: Sys, t: nat) returns (g: nat)
    requires Inv(p, y) && t < |y.pcs| && Enabled(p, y, t, Resume)
    ensures GoodSetup(p) && |y.nexts| == 1 && g < |y.seats| && y.pcs[t] == Own(g) && Holds(y.pcs, t, g) && y.seats[g].need != []
    ensures var y' := Apply(p, y, t, Resume);
      && Owning(Tried(g)) && |y'.seats| == |y.seats| && |y'.pcs| == |y.pcs| && y'.pcs[t] == Tried(g) && y'.seats[g] == y.seats[g]
      && y' == y.(seats := y.seats[g := y'.seats[g]], pcs := y.pcs[t := y'.pcs[t]])
  {
    hide Hands, AnswersOk, Booked, GoodSetup;
    g := y.pcs[t].g;
    assert y.seats == y.seats[g := y.seats[g]];
  }

  lemma HeldAt(p: Setup, y: Sys, t: nat, g: nat)
    requires Inv(p, y) && Holds(y.pcs, t, g)
    ensures GoodSetup(p) && t < |y.pcs| && g < |y.seats| && AtWork(p, y.pcs[t], y.seats[g])
  {
    hide AtWork, GoodSetup, AnswersOk, Booked, Free;
  }

  lemma ResumeSeat(p: Setup, s: Seat, g: nat)
    requires GoodSetup(p) && AtWork(p, Own(g), s) && s.need != []
    ensures AtWork(p, Tried(g), s) && !s.st.Empty?
  {
    hide Tracked, NeedOf;
  }

  /** Only which candidates are read matters to the scores. */
  lemma SameScores(p: Setup, qi: nat, a: seq<Cand>, b: seq<Cand>, readings: seq<Reading>)
    requires GoodSetup(p) && qi < |p.asks| && |readings| == |a| == |b| && Ids(a) == Ids(b)
    ensures Scores(p, qi, a, readings) == Scores(p, qi, b, readings)
  {
    hide BytesRead, GoodSetup;
    forall i | 0 <= i < |a| ensures Scores(p, qi, a, readings)[i] == Scores(p, qi, b, readings)[i] {
      assert a[i].id == Ids(a)[i] == Ids(b)[i] == b[i].id;
    }
  }

  /** A rank that comes through leaves each candidate with the score its reading gave. */
  lemma RankedCarries(p: Setup, s: Seat, readings: seq<Reading>)
    requires GoodSetup(p) && s.qi < |p.asks| && |readings| == |s.q.cand|
    requires forall j :: 0 <= j < |readings| ==> FromValid(p.cache, readings[j])
    requires var got := Scores(p, s.qi, s.q.cand, readings); Got(got, |got|)
    ensures var r := Ranked(s.q.cand, Scores(p, s.qi, s.q.cand, readings)); Carries(p, s.qi, r, readings)
  {
    var got := Scores(p, s.qi, s.q.cand, readings);
    var r := Ranked(s.q.cand, got);
    SameScores(p, s.qi, r, s.q.cand, readings);
    hide Scores, FromValid, GoodSetup;
    forall i | 0 <= i < |r| ensures got[i] == Some(r[i].dist) { assert got[i].Some?; }
  }

  /** Ranking keeps the candidates; a full rank leaves them carrying what was read. */
  lemma RankedHeld(p: Setup, s: Seat, try: bool, now: bool, readings: seq<Reading>, g: nat)
    requires GoodSetup(p) && AtWork(p, Tried(g), s) && s.qi < |p.asks| && |readings| == |s.q.cand|
    requires forall j :: 0 <= j < |readings| ==> FromValid(p.cache, readings[j])
    requires s.need == [] ==> try && now
    ensures var r := RankedSeat(s, try, now, Scores(p, s.qi, s.q.cand, readings)); AtWork(p, Handing(g, readings), r) && r.qi == s.qi && !r.st.Empty?
  {
    var got := Scores(p, s.qi, s.q.cand, readings);
    var r := RankedSeat(s, try, now, got);
    SerialInRange(p, s.qi, s.q.cand);
    NeedEmpty(p, s.q.cand);
    SameIdsSameNeed(p, r.q.cand, s.q.cand);
    if Got(got, |got|) { RankedCarries(p, s, readings); }
    hide NeedOf, Serial, Scores, FromValid, GoodSetup, Carries, InRange, BeamProofs.DistinctIds;
  }

  lemma RankKeepsInv(p: Setup, y: Sys, t: nat, e: Ev)
    requires Inv(p, y) && t < |y.pcs| && Enabled(p, y, t, e) && e.Rank?
    ensures Inv(p, Apply(p, y, t, e))
  {
    hide *;
    var g := RankIs(p, y, t, e);
    HeldAt(p, y, t, g);
    TriedBusy(p, y.seats[g], g);
    RankedHeld(p, y.seats[g], e.try, e.now, e.readings, g);
    HeldMove(p, y, Apply(p, y, t, e), t, g);
  }

  lemma TriedBusy(p: Setup, s: Seat, g: nat)
    requires GoodSetup(p) && AtWork(p, Tried(g), s)
    ensures s.st.Busy? && !s.st.Empty?
  {}

  lemma RankIs(p: Setup, y: Sys, t: nat, e: Ev) returns (g: nat)
    requires Inv(p, y) && t < |y.pcs| && Enabled(p, y, t, e) && e.Rank?
    ensures GoodSetup(p) && |y.nexts| == 1 && g < |y.seats| && y.pcs[t] == Tried(g) && Holds(y.pcs, t, g) && y.seats[g].qi < |p.asks|
    ensures |e.readings| == |y.seats[g].q.cand| && (forall i :: 0 <= i < |e.readings| ==> FromValid(p.cache, e.readings[i]))
    ensures y.seats[g].need == [] ==> e.try && e.now
    ensures var y', s := Apply(p, y, t, e), y.seats[g];
      && Owning(Handing(g, e.readings)) && |y'.seats| == |y.seats| && |y'.pcs| == |y.pcs| && y'.pcs[t] == Handing(g, e.readings)
      && y'.seats[g] == RankedSeat(s, e.try, e.now, Scores(p, s.qi, s.q.cand, e.readings))
      && y' == y.(seats := y.seats[g := y'.seats[g]], pcs := y.pcs[t := y'.pcs[t]])
  {
    hide Hands, AnswersOk, Booked, RankedSeat, Scores, FromValid;
    g := y.pcs[t].g;
  }

  lemma HandBack(p: Setup, y: Sys, t: nat, sorted: seq<Cand>)
    requires Inv(p, y) && t < |y.pcs| && Enabled(p, y, t, Hand(sorted)) && !y.seats[y.pcs[t].g].st.Done?
    ensures Inv(p, Apply(p, y, t, Hand(sorted)))
  {
    hide *;
    var g := HandingSeat(p, y, t, sorted);
    HandedFree(p, y, t, g);
    HandBackIs(p, y, t, g, sorted);
    HeldMove(p, y, Apply(p, y, t, Hand(sorted)), t, g);
  }

  lemma HandingSeat(p: Setup, y: Sys, t: nat, sorted: seq<Cand>) returns (g: nat)
    requires Inv(p, y) && t < |y.pcs| && Enabled(p, y, t, Hand(sorted)) && !y.seats[y.pcs[t].g].st.Done?
    ensures GoodSetup(p) && |y.nexts| == 1 && g < |y.seats| && y.pcs[t].Handing? && y.pcs[t].g == g && !y.seats[g].st.Done?
  {
    hide Hands, AnswersOk, Booked, GoodSetup, SortOf;
    g := y.pcs[t].g;
  }

  lemma HandBackIs(p: Setup, y: Sys, t: nat, g: nat, sorted: seq<Cand>)
    requires GoodSetup(p) && |y.nexts| == 1 && t < |y.pcs| && g < |y.seats| && y.pcs[t].Handing? && y.pcs[t].g == g
    requires Enabled(p, y, t, Hand(sorted)) && y.seats[g].st.Busy?
    ensures Holds(y.pcs, t, g)
    ensures var y' := Apply(p, y, t, Hand(sorted));
      && !Owning(Top) && |y'.seats| == |y.seats| && |y'.pcs| == |y.pcs| && y'.pcs[t] == Top && y'.seats[g] == y.seats[g].(st := Wait)
      && y' == y.(seats := y.seats[g := y'.seats[g]], pcs := y.pcs[t := y'.pcs[t]])
  {
    hide GoodSetup, SortOf, Outcome;
  }

  /** A seat handed back unfinished goes to the pool. */
  lemma HandedFree(p: Setup, y: Sys, t: nat, g: nat)
    requires Inv(p, y) && t < |y.pcs| && y.pcs[t].Handing? && y.pcs[t].g == g && g < |y.seats| && !y.seats[g].st.Done?
    ensures y.seats[g].st.Busy? && Free(p, y.seats[g].(st := Wait))
  {
    hide NeedOf, Serial, Booked, Chosen;
    assert Holds(y.pcs, t, g) && AtWork(p, y.pcs[t], y.seats[g]);
  }

  /** The sort's prefix is a k-prefix by the scores the candidates carry, right or not. */
  lemma FinishChosen(p: Setup, s: Seat, readings: seq<Reading>, sorted: seq<Cand>)
    requires Tracked(p, s) && SortOf(s.q.cand, sorted) && Carries(p, s.qi, s.q.cand, readings)
    ensures Chosen(p, s.qi, readings, Outcome(p, sorted))
  {
    var score := Carried(s.q.cand, |p.vecOff|);
    CarriedScores(p, s, score);
    SortedIsPrefix(score, s.q.cand, sorted, p.k);
    hide Serial, Carries, SortOf;
    assert ByScore(p, s.qi, score, Outcome(p, sorted));
  }

  lemma CarriedScores(p: Setup, s: Seat, score: seq<real>)
    requires Tracked(p, s) && score == Carried(s.q.cand, |p.vecOff|)
    ensures InRange(p, s.q.cand) && BeamProofs.DistinctIds(s.q.cand)
    ensures forall i :: 0 <= i < |s.q.cand| ==> s.q.cand[i].id < |score| && s.q.cand[i].dist == score[s.q.cand[i].id]
    ensures Rescored(p, s.qi, score) == s.q.cand
  {
    SerialInRange(p, s.qi, s.q.cand);
    forall i | 0 <= i < |s.q.cand| ensures s.q.cand[i].id < |score| && s.q.cand[i].dist == score[s.q.cand[i].id] {
      CarriedAt(s.q.cand, |p.vecOff|, i);
    }
    SerialIds(p, s);
    hide Carried, Serial;
  }

  lemma SerialIds(p: Setup, s: Seat)
    requires Tracked(p, s)
    ensures |Serial(p, s.qi).cand| == |s.q.cand| && forall i :: 0 <= i < |s.q.cand| ==> Serial(p, s.qi).cand[i].id == s.q.cand[i].id
  {
    hide Serial;
    var serial := Serial(p, s.qi).cand;
    assert |serial| == |Ids(serial)| && |s.q.cand| == |Ids(s.q.cand)|;
    forall i | 0 <= i < |s.q.cand| ensures serial[i].id == s.q.cand[i].id {
      assert serial[i].id == Ids(serial)[i] && s.q.cand[i].id == Ids(s.q.cand)[i];
    }
  }

  /** The distance the candidates carry for each id, or zero. */
  ghost function Carried(cand: seq<Cand>, n: nat): (r: seq<real>)
    ensures |r| == n
  {
    if cand == [] then seq(n, _ => 0.0)
    else
      var r := Carried(cand[..|cand| - 1], n);
      var c := cand[|cand| - 1];
      if c.id < n then r[c.id := c.dist] else r
  }

  lemma {:induction false} CarriedAt(cand: seq<Cand>, n: nat, i: nat)
    requires BeamProofs.DistinctIds(cand) && i < |cand| && cand[i].id < n
    ensures Carried(cand, n)[cand[i].id] == cand[i].dist
  {
    if i < |cand| - 1 { CarriedAt(cand[..|cand| - 1], n, i); }
  }

  lemma HandChosen(p: Setup, y: Sys, t: nat, g: nat, sorted: seq<Cand>)
    requires Inv(p, y) && Holds(y.pcs, t, g) && g < |y.seats| && y.pcs[t].Handing? && y.seats[g].st.Done? && SortOf(y.seats[g].q.cand, sorted)
    ensures y.seats[g].qi < |p.asks| && Chosen(p, y.seats[g].qi, y.pcs[t].read, Outcome(p, sorted))
  {
    hide NeedOf, Serial, Booked, Chosen, Outcome, SortOf, Carries;
    assert AtWork(p, y.pcs[t], y.seats[g]);
    FinishChosen(p, y.seats[g], y.pcs[t].read, sorted);
  }

  lemma HandKeeps(p: Setup, y: Sys, t: nat, sorted: seq<Cand>)
    requires Inv(p, y) && t < |y.pcs| && Enabled(p, y, t, Hand(sorted))
    ensures Inv(p, Apply(p, y, t, Hand(sorted)))
  {
    var g := y.pcs[t].g;
    if y.seats[g].st.Done? {
      assert Holds(y.pcs, t, g);
      assert Answered(y, t, g, y.pcs[t].read, Outcome(p, sorted)) == Apply(p, y, t, Hand(sorted));
      hide Inv, Apply, Enabled, Outcome;
      HandChosen(p, y, t, g, sorted);
      HandFinish(p, y, t, g, y.pcs[t].read, Outcome(p, sorted));
    } else {
      HandBack(p, y, t, sorted);
    }
  }

  /** The seat emptied and the query booked as answered. */
  function Answered(y: Sys, t: nat, g: nat, read: seq<Reading>, out: seq<nat>): Sys
    requires t < |y.pcs| && g < |y.seats|
  {
    Go(SharedScheduler.Put(y, g, EmptySeat()).(results := y.results[y.seats[g].qi := out], finished := y.finished + 1,
                                               read := y.read[y.seats[g].qi := read]), t, Top)
  }

  lemma HandFinish(p: Setup, y: Sys, t: nat, g: nat, read: seq<Reading>, out: seq<nat>)
    requires Holds(y.pcs, t, g) && g < |y.seats| && Inv(p, y) && y.seats[g].st.Done?
    requires y.seats[g].qi < |p.asks| && Chosen(p, y.seats[g].qi, read, out)
    ensures Inv(p, Answered(y, t, g, read, out))
  {
    hide GoodSetup, Hands, Chosen, Booked, AtWork, Free;
    assert Free(p, EmptySeat()) by { FreeEmpty(p); }
    HandsMove(p, y, Answered(y, t, g, read, out), t, g);
    BookFinish(|p.asks|, y.seats, y.results, y.nexts, g, EmptySeat(), out);
    OneMore(y.results, y.seats[g].qi, out);
  }

  lemma FreeEmpty(p: Setup)
    requires GoodSetup(p)
    ensures Free(p, EmptySeat())
  {}

  lemma OneMore(m: map<nat, seq<nat>>, k: nat, v: seq<nat>)
    requires k !in m
    ensures |m[k := v]| == |m| + 1
  {
    assert m[k := v].Keys == m.Keys + {k};
    assert |m[k := v].Keys| == |m[k := v]| && |m.Keys| == |m|;
  }

  lemma LookKeeps(p: Setup, y: Sys, t: nat)
    requires Inv(p, y) && t < |y.pcs| && Enabled(p, y, t, Look)
    ensures Inv(p, Apply(p, y, t, Look))
  {
    hide Hands, AnswersOk, Booked, AtWork, Free, GoodSetup;
    HandsIdle(p, y, Apply(p, y, t, Look), t);
    SameAnswers(p, y, Apply(p, y, t, Look));
  }

  // ------------------------------------------------------------ runs

  lemma StepKeeps(p: Setup, y: Sys, t: nat, e: Ev)
    requires Inv(p, y) && t < |y.pcs| && Enabled(p, y, t, e)
    ensures Inv(p, Apply(p, y, t, e)) && |Apply(p, y, t, e).pcs| == |y.pcs|
  {
    hide Inv, GoodSetup, Closed, SortOf, FromValid;
    match e
    case Look => LookKeeps(p, y, t);
    case Enter(cov, start) => EnterKeeps(p, y, t, cov, start);
    case Start(tok) => StartKeeps(p, y, t, tok);
    case Resume => ResumeKeeps(p, y, t);
    case Rank(_, _, _) => RankKeepsInv(p, y, t, e);
    case Hand(sorted) => HandKeeps(p, y, t, sorted);
  }

  ghost predicate Runs(p: Setup, y: Sys, trace: seq<(nat, Ev)>, z: Sys)
    decreases |trace|
  {
    if trace == [] then z == y
    else
      var (t, e) := trace[0];
      && GoodSetup(p) && t < |y.pcs| && |y.nexts| == 1 && Enabled(p, y, t, e)
      && Runs(p, Apply(p, y, t, e), trace[1..], z)
  }

  lemma {:induction false} RunKeeps(p: Setup, y: Sys, trace: seq<(nat, Ev)>, z: Sys)
    requires Inv(p, y) && Runs(p, y, trace, z)
    ensures Inv(p, z)
    decreases |trace|
  {
    hide Enabled, Apply, Inv;
    if trace != [] {
      var (t, e) := trace[0];
      StepKeeps(p, y, t, e);
      RunKeeps(p, Apply(p, y, t, e), trace[1..], z);
    }
  }

  lemma StartInv(p: Setup, y: Sys)
    requires Init0(p, y)
    ensures Inv(p, y)
  {
    BookStart(|p.asks|, y.seats, y.nexts);
  }

  /** What every run keeps, whatever its readings yield. */
  lemma AnyRun(p: Setup, y: Sys, trace: seq<(nat, Ev)>, z: Sys)
    requires Init0(p, y) && Runs(p, y, trace, z)
    ensures Inv(p, z)
  {
    hide Inv;
    StartInv(p, y);
    RunKeeps(p, y, trace, z);
  }

  /** A Busy or Done seat has exactly one worker, and no other seat has any. */
  lemma OneOwner(p: Setup, y: Sys, trace: seq<(nat, Ev)>, z: Sys, g: nat)
    requires Init0(p, y) && Runs(p, y, trace, z) && g < |z.seats|
    ensures Taken(z.pcs, g) <==> z.seats[g].st.Busy? || z.seats[g].st.Done?
    ensures forall t: nat, u: nat :: Holds(z.pcs, t, g) && Holds(z.pcs, u, g) ==> t == u
  {
    AnyRun(p, y, trace, z);
    if Taken(z.pcs, g) { var t: nat :| Holds(z.pcs, t, g); assert AtWork(p, z.pcs[t], z.seats[g]); }
  }

  /**
   In every interleaving, whatever the readings yield, each query is in one
   place, and an answer is a k-prefix of its serial beam's candidates by the
   scores that the rank which finished it read.
   */
  lemma SharedInvariance(p: Setup, y: Sys, trace: seq<(nat, Ev)>, z: Sys, qi: nat)
    requires Init0(p, y) && Runs(p, y, trace, z)
    ensures qi in z.results ==> GoodSetup(p) && qi < |p.asks| && qi in z.read && Chosen(p, qi, z.read[qi], z.results[qi])
    ensures qi < |p.asks| ==> Unclaimed(z.nexts, qi) || qi in z.results || Seated(z.seats, qi)
    ensures !(Unclaimed(z.nexts, qi) && qi in z.results) && !(qi in z.results && Seated(z.seats, qi))
    ensures z.finished == |z.results|
  {
    AnyRun(p, y, trace, z);
    hide Chosen, Answer;
  }

  /** What a finished query's rank read is what some rank step of the run read. */
  lemma {:induction false} ReadInRun(p: Setup, y: Sys, trace: seq<(nat, Ev)>, z: Sys, qi: nat)
    requires Init0(p, y) && Runs(p, y, trace, z) && qi in z.read
    ensures exists i :: 0 <= i < |trace| && trace[i].1.Rank? && trace[i].1.readings == z.read[qi]
  {
    hide Enabled, GoodSetup;
    NoneRead(p, y, trace, z, []);
    assert [] + trace == trace;
  }

  ghost predicate WasRead(trace: seq<(nat, Ev)>, read: seq<Reading>) {
    exists i :: 0 <= i < |trace| && trace[i].1.Rank? && trace[i].1.readings == read
  }

  /** Everything recorded, or about to be, was read in `trace`. */
  ghost predicate AllRead(y: Sys, trace: seq<(nat, Ev)>) {
    && (forall qi :: qi in y.read ==> WasRead(trace, y.read[qi]))
    && (forall t :: 0 <= t < |y.pcs| && y.pcs[t].Handing? ==> WasRead(trace, y.pcs[t].read))
  }

  lemma {:induction false} NoneRead(p: Setup, y: Sys, trace: seq<(nat, Ev)>, z: Sys, before: seq<(nat, Ev)>)
    requires AllRead(y, before) && Runs(p, y, trace, z)
    ensures AllRead(z, before + trace)
    decreases |trace|
  {
    hide Enabled, GoodSetup, AllRead, Apply;
    if trace == [] {
      assert before + trace == before;
    } else {
      var (t, e) := trace[0];
      ReadOne(p, y, t, e, before);
      NoneRead(p, Apply(p, y, t, e), trace[1..], z, before + [trace[0]]);
      assert before + [trace[0]] + trace[1..] == before + trace;
    }
  }

  lemma ReadOne(p: Setup, y: Sys, t: nat, e: Ev, before: seq<(nat, Ev)>)
    requires GoodSetup(p) && t < |y.pcs| && |y.nexts| == 1 && Enabled(p, y, t, e) && AllRead(y, before)
    ensures AllRead(Apply(p, y, t, e), before + [(t, e)])
  {
    hide GoodSetup, Admit, RankedSeat, Scores, Issued, Beam, Outcome, WasRead;
    forall read | WasRead(before, read) ensures WasRead(before + [(t, e)], read) { ReadBefore(before, (t, e), read); }
    if e.Rank? { JustRead(before, t, e); }
  }

  lemma ReadBefore(before: seq<(nat, Ev)>, last: (nat, Ev), read: seq<Reading>)
    requires WasRead(before, read)
    ensures WasRead(before + [last], read)
  {
    var i :| 0 <= i < |before| && before[i].1.Rank? && before[i].1.readings == read;
    assert (before + [last])[i] == before[i];
  }

  lemma JustRead(before: seq<(nat, Ev)>, t: nat, e: Ev)
    requires e.Rank?
    ensures WasRead(before + [(t, e)], e.readings)
  {
    assert (before + [(t, e)])[|before|] == (t, e);
  }

  /** A pointer held, a read that came through scored the bytes the image holds for that id. */
  lemma ScoresRight(p: Setup, qi: nat, cand: seq<Cand>, readings: seq<Reading>, i: nat)
    requires GoodSetup(p) && qi < |p.asks| && |readings| == |cand| && PointersHeld(p, cand, readings) && i < |cand|
    requires (forall j :: 0 <= j < |readings| ==> FromValid(p.cache, readings[j])) && Scores(p, qi, cand, readings)[i].Some?
    ensures cand[i].id < |p.vecOff| && Scores(p, qi, cand, readings)[i].value == Score(p, qi)[cand[i].id]
  {
    HeldReadsImage(p.cache, p.vecOff[cand[i].id], p.vecBytes, readings[i]);
  }

  /**
   A query gets its serial answer, whatever the others read, when in the rank
   that finished it every pointer was followed while its frame still held the
   page.
   */
  lemma SharedAnswer(p: Setup, y: Sys, trace: seq<(nat, Ev)>, z: Sys, qi: nat)
    requires Init0(p, y) && Runs(p, y, trace, z) && qi in z.results && qi in z.read && qi < |p.asks|
    requires |z.read[qi]| == |Serial(p, qi).cand| && PointersHeld(p, Serial(p, qi).cand, z.read[qi])
    ensures GoodSetup(p) && Answer(p, qi, z.results[qi])
  {
    SharedInvariance(p, y, trace, z, qi);
    hide Chosen, Answer, Runs, Init0;
    HeldAnswers(p, qi, z.read[qi], z.results[qi]);
  }

  lemma HeldAnswers(p: Setup, qi: nat, readings: seq<Reading>, out: seq<nat>)
    requires GoodSetup(p) && qi < |p.asks| && Chosen(p, qi, readings, out)
    requires |readings| == |Serial(p, qi).cand| && PointersHeld(p, Serial(p, qi).cand, readings)
    ensures Answer(p, qi, out)
  {
    var serial := Serial(p, qi).cand;
    hide Serial, Carries, Scores, ByScore, GoodSetup;
    var score: seq<real> :| |score| == |p.vecOff| && Carries(p, qi, Rescored(p, qi, score), readings) && ByScore(p, qi, score, out);
    SerialInRange(p, qi, serial);
    forall i | 0 <= i < |serial| ensures score[serial[i].id] == Score(p, qi)[serial[i].id] { RightScore(p, qi, score, readings, i); }
    SameOrder(p, qi, score, out);
  }

  lemma RightScore(p: Setup, qi: nat, score: seq<real>, readings: seq<Reading>, i: nat)
    requires GoodSetup(p) && qi < |p.asks| && |score| == |p.vecOff| && Carries(p, qi, Rescored(p, qi, score), readings)
    requires |readings| == |Serial(p, qi).cand| && PointersHeld(p, Serial(p, qi).cand, readings) && i < |Serial(p, qi).cand|
    ensures InRange(p, Serial(p, qi).cand) && score[Serial(p, qi).cand[i].id] == Score(p, qi)[Serial(p, qi).cand[i].id]
  {
    var serial, r := Serial(p, qi).cand, Rescored(p, qi, score);
    hide Serial, GoodSetup, Score, PointersHeld, FromValid, Scores;
    SerialInRange(p, qi, serial);
    assert Ids(r) == Ids(serial);
    SameScores(p, qi, r, serial, readings);
    assert Scores(p, qi, r, readings)[i] == Some(r[i].dist);
    ScoresRight(p, qi, serial, readings, i);
  }

  /** Scores that agree on the candidates order them alike. */
  lemma SameOrder(p: Setup, qi: nat, score: seq<real>, out: seq<nat>)
    requires GoodSetup(p) && qi < |p.asks| && |score| == |p.vecOff| && ByScore(p, qi, score, out) && InRange(p, Serial(p, qi).cand)
    requires forall i :: 0 <= i < |Serial(p, qi).cand| ==> score[Serial(p, qi).cand[i].id] == Score(p, qi)[Serial(p, qi).cand[i].id]
    ensures Answer(p, qi, out)
  {
    var ids := Ids(Serial(p, qi).cand);
    hide Serial, Score, GoodSetup;
    forall id | id in ids ensures score[id] == Score(p, qi)[id] {
      var i :| 0 <= i < |ids| && ids[i] == id;
      assert ids[i] == Serial(p, qi).cand[i].id;
    }
  }

  /** The count reaches the number of queries only when every query is answered and every seat is empty. */
  lemma CountedMeansDone(p: Setup, y: Sys, trace: seq<(nat, Ev)>, z: Sys)
    requires Init0(p, y) && Runs(p, y, trace, z) && z.finished >= |p.asks|
    ensures forall qi: nat :: qi in z.results <==> qi < |p.asks|
    ensures forall g :: 0 <= g < |z.seats| ==> z.seats[g].st.Empty?
  {
    hide *;
    AnyRun(p, y, trace, z);
    BooksOf(p, z);
    assert |z.results| == |z.results.Keys|;
    BelowCard(z.results.Keys, |p.asks|);
    NoneSeated(|p.asks|, z.seats, z.results, z.nexts);
  }

  lemma BooksOf(p: Setup, y: Sys)
    requires Inv(p, y)
    ensures |y.nexts| == 1 && Booked(|p.asks|, y.seats, y.results, y.nexts) && y.finished == |y.results|
    ensures forall qi :: qi in y.results ==> qi < |p.asks|
  {
    hide Hands, Booked, GoodSetup, Chosen;
  }

  lemma NoneSeated(n: nat, seats: seq<Seat>, results: map<nat, seq<nat>>, nexts: seq<nat>)
    requires Booked(n, seats, results, nexts) && forall qi: nat :: qi < n ==> qi in results
    ensures forall g :: 0 <= g < |seats| ==> seats[g].st.Empty?
  {
    forall g: nat | g < |seats| ensures seats[g].st.Empty? {
      var qi := seats[g].qi;
      assert On(seats, g, qi) == !seats[g].st.Empty?;
    }
  }

  /** A worker leaves only when everything is done. */
  lemma LeftMeansDone(p: Setup, y: Sys, trace: seq<(nat, Ev)>, z: Sys, t: nat)
    requires Init0(p, y) && Runs(p, y, trace, z) && t < |z.pcs| && z.pcs[t].Left?
    ensures forall qi: nat :: qi in z.results <==> qi < |p.asks|
    ensures forall g :: 0 <= g < |z.seats| ==> z.seats[g].st.Empty?
  {
    hide *;
    AnyRun(p, y, trace, z);
    LeftCounted(p, z, t);
    CountedMeansDone(p, y, trace, z);
  }

  lemma LeftCounted(p: Setup, y: Sys, t: nat)
    requires Inv(p, y) && t < |y.pcs| && y.pcs[t].Left?
    ensures y.finished >= |p.asks|
  {
    hide Hands, AnswersOk, Booked, GoodSetup;
  }
}
