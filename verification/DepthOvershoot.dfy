/**
 How far the issue depth is exceeded: the test and the count are separate
 steps, so every thread can pass the test before any is counted.  The most that
 are ever in flight at once, and when that is more than the depth.
 */
module DepthOvershoot {
  import opened Common
  import opened Counting
  import opened PageMath
  import opened ContBatch
  import opened BeamSpec
  import opened BeamProofs
  import opened Seats
  import opened Ledger
  import opened Scheduler
  import opened SchedulerProofs
  import W = WindowSpec

  /** The first `k` seats of thread `t` wait for their pages, the others are empty. */
  ghost predicate Loaded(pl: Plan, y: Sys, t: nat, k: nat) {
    && Sized(pl, y) && t < pl.threads && y.pcs[t].Top? && k <= pl.depth
    && forall g: nat :: Owns(pl, t, g) ==> g < |y.seats| && (if g < Base(pl, t) + k then y.seats[g].st.Wait? else y.seats[g].st.Empty?)
  }

  /** Every query has pages to fetch. */
  ghost predicate PagesNeeded(p: Setup) {
    GoodSetup(p) && forall qi: nat :: qi < |p.asks| ==> NeedOf(p, Serial(p, qi).cand) != []
  }

  /** A depth is set and not used up, and queries are left. */
  ghost predicate CanIssue(pl: Plan, y: Sys) {
    pl.mode.Steal? && y.nand < pl.mode.qd && |y.nexts| == 1 && y.nexts[0] < |pl.p.asks|
  }

  /** From a seat to spare to past the depth test, in four steps. */
  lemma ClearOne(pl: Plan, y: Sys, t: nat, k: nat) returns (trace: seq<(nat, Ev)>, z: Sys)
    requires Loaded(pl, y, t, k) && k < pl.depth && CanIssue(pl, y)
    ensures Runs(pl, y, trace, z) && Sized(pl, z)
    ensures z.nand == y.nand && z.nexts == [y.nexts[0] + 1]
    ensures z.pcs == y.pcs[t := Cleared(Base(pl, t) + k)]
    ensures Base(pl, t) + k < |y.seats| && z.seats == y.seats[Base(pl, t) + k := Admitted(pl.p, y.nexts[0])]
  {
    hide Runs, Enabled, Apply, Admitted, Base, GoodPlan;
    var first, y2 := PickSeat(pl, y, t, k);
    var rest;
    rest, z := PassTest(pl, y2, t, Base(pl, t) + k);
    hide Sized, Loaded;
    RunsJoin(pl, y, first, y2, rest, z);
    trace := first + rest;
  }

  lemma PickSeat(pl: Plan, y: Sys, t: nat, k: nat) returns (trace: seq<(nat, Ev)>, z: Sys)
    requires Loaded(pl, y, t, k) && k < pl.depth && CanIssue(pl, y)
    ensures Runs(pl, y, trace, z) && Sized(pl, z) && Base(pl, t) + k < |y.seats| && z == Go(y, t, Filling(Base(pl, t) + k))
  {
    OwnsInside(pl, y, t);
    var cov := seq(pl.depth, _ => true);
    var y1 := Go(y, t, Looked(true));
    assert y1 == Apply(pl, y, t, Look);
    z := ChooseFill(pl, y1, t, k, cov);
    hide Apply, Enabled;
    RunsTwo(pl, y, t, Look, y1, Choose(cov), z);
    trace := [(t, Look), (t, Choose(cov))];
  }

  lemma PassTest(pl: Plan, y: Sys, t: nat, g: nat) returns (trace: seq<(nat, Ev)>, z: Sys)
    requires Sized(pl, y) && t < pl.threads && y.pcs[t] == Filling(g) && g < |y.seats| && CanIssue(pl, y)
    ensures Runs(pl, y, trace, z) && Sized(pl, z) && z.nand == y.nand && z.nexts == [y.nexts[0] + 1]
    ensures z.pcs == y.pcs[t := Cleared(g)] && z.seats == y.seats[g := Admitted(pl.p, y.nexts[0])]
  {
    hide Admitted;
    var y3 := Apply(pl, y, t, Claim);
    z := Go(y3, t, Cleared(g));
    assert z == Apply(pl, y3, t, Try);
    hide Apply, Enabled;
    RunsTwo(pl, y, t, Claim, y3, Try, z);
    trace := [(t, Claim), (t, Try)];
  }

  lemma ChooseFill(pl: Plan, y: Sys, t: nat, k: nat, cov: seq<bool>) returns (z: Sys)
    requires Sized(pl, y) && t < pl.threads && y.pcs[t] == Looked(true) && pl.mode.Steal? && k < pl.depth
    requires forall g: nat :: Owns(pl, t, g) ==> g < |y.seats| && (if g < Base(pl, t) + k then y.seats[g].st.Wait? else y.seats[g].st.Empty?)
    requires cov == seq(pl.depth, _ => true)
    ensures Enabled(pl, y, t, Choose(cov)) && z == Apply(pl, y, t, Choose(cov)) == Go(y, t, Filling(Base(pl, t) + k))
  {
    OwnsInside(pl, y, t);
    var st := Statuses(pl, y, t);
    forall i: nat | i < pl.depth ensures st[i] == (if i < k then Wait else CbSt.Empty) {
      assert Owns(pl, t, Base(pl, t) + i) && st[i] == y.seats[Base(pl, t) + i].st;
    }
    assert forall i: nat :: i < pl.depth ==> !Is(Held, st[i], cov[i]);
    assert Is(Vacant, st[k], cov[k]);
    assert First(Vacant, st, cov) == Some(k);
    z := Go(y, t, Filling(Base(pl, t) + k));
  }

  /** One query put on a spare seat, issued and left waiting with its place in the count. */
  lemma HoldOne(pl: Plan, y: Sys, t: nat, k: nat) returns (trace: seq<(nat, Ev)>, z: Sys)
    requires Loaded(pl, y, t, k) && k < pl.depth && CanIssue(pl, y) && PagesNeeded(pl.p)
    ensures Runs(pl, y, trace, z) && Loaded(pl, z, t, k + 1)
    ensures z.nand == y.nand + 1 && z.nexts == [y.nexts[0] + 1] && z.pcs == y.pcs && SeatsApart(pl, y, z, t)
  {
    var first, y1 := ClearOne(pl, y, t, k);
    var g := Base(pl, t) + k;
    var y2 := Go(y1.(nand := y1.nand + 1), t, Counted(g));
    assert y2 == Apply(pl, y1, t, CountIn);
    var s := y1.seats[g];
    z := Go(Scheduler.Put(y2, g, Issued(pl.p, s, Some(0)).(held := true)), t, Top);
    SendHeld(pl, y2, t, g, y.nexts[0], z);
    assert z.pcs == y.pcs;
    RunsTwo(pl, y1, t, CountIn, y2, Send(Some(0)), z);
    var rest := [(t, CountIn), (t, Send(Some(0)))];
    RunsJoin(pl, y, first, y1, rest, z);
    trace := first + rest;
    hide Admitted, Issued, Runs, Enabled, Apply;
    forall h: nat | Owns(pl, t, h) ensures h < |z.seats| && (if h < Base(pl, t) + (k + 1) then z.seats[h].st.Wait? else z.seats[h].st.Empty?) {}
  }

  /** The other threads' seats are as they were. */
  ghost predicate SeatsApart(pl: Plan, y: Sys, z: Sys, t: nat) {
    |y.seats| == |z.seats| && forall g: nat :: g < |y.seats| && !Owns(pl, t, g) ==> z.seats[g] == y.seats[g]
  }

  /** A counted query with pages to fetch keeps its place when a slot takes them. */
  lemma SendHeld(pl: Plan, y: Sys, t: nat, g: nat, qi: nat, z: Sys)
    requires Sized(pl, y) && t < pl.threads && y.pcs[t] == Counted(g) && g < |y.seats| && pl.mode.Steal?
    requires PagesNeeded(pl.p) && qi < |pl.p.asks| && y.seats[g] == Admitted(pl.p, qi)
    requires z == Go(Scheduler.Put(y, g, Issued(pl.p, y.seats[g], Some(0)).(held := true)), t, Top)
    ensures Enabled(pl, y, t, Send(Some(0))) && z == Apply(pl, y, t, Send(Some(0))) && Sized(pl, z)
    ensures z.seats[g].st.Wait?
  {
    hide NeedOf, Serial;
  }

  lemma LoadedSized(pl: Plan, y: Sys, t: nat, k: nat)
    requires Loaded(pl, y, t, k)
    ensures Sized(pl, y)
  {}

  lemma NoSteps(pl: Plan, y: Sys)
    requires Sized(pl, y)
    ensures Runs(pl, y, [], y) && pl.depth > 0
  {}

  lemma MayIssue(pl: Plan, y: Sys, want: nat)
    requires pl.mode.Steal? && y.nand + want <= pl.mode.qd && |y.nexts| == 1 && y.nexts[0] + want <= |pl.p.asks| && want > 0
    ensures CanIssue(pl, y)
  {}

  lemma SameApart(pl: Plan, y: Sys, t: nat)
    ensures SeatsApart(pl, y, y, t)
  {}

  lemma ApartOn(pl: Plan, x: Sys, y: Sys, z: Sys, t: nat)
    requires SeatsApart(pl, x, y, t) && SeatsApart(pl, y, z, t)
    ensures SeatsApart(pl, x, z, t)
  {}

  /** `want` more queries held on one thread. */
  lemma {:induction false} HoldSome(pl: Plan, y: Sys, t: nat, k: nat, want: nat) returns (trace: seq<(nat, Ev)>, z: Sys)
    requires Loaded(pl, y, t, k) && k + want <= pl.depth && PagesNeeded(pl.p)
    requires pl.mode.Steal? && y.nand + want <= pl.mode.qd && |y.nexts| == 1 && y.nexts[0] + want <= |pl.p.asks|
    ensures Runs(pl, y, trace, z) && Loaded(pl, z, t, k + want)
    ensures z.nand == y.nand + want && z.nexts == [y.nexts[0] + want] && z.pcs == y.pcs && SeatsApart(pl, y, z, t)
    decreases want
  {
    hide *;
    LoadedSized(pl, y, t, k);
    NoSteps(pl, y);
    SameApart(pl, y, t);
    if want == 0 {
      trace, z := [], y;
    } else {
      MayIssue(pl, y, want);
      var first, y1 := HoldOne(pl, y, t, k);
      var rest;
      rest, z := HoldSome(pl, y1, t, k + 1, want - 1);
      ApartOn(pl, y, y1, z, t);
      RunsJoin(pl, y, first, y1, rest, z);
      trace := first + rest;
    }
  }

  /** Thread `u` is at the top with a seat to spare. */
  ghost predicate Spare(pl: Plan, y: Sys, u: nat) {
    exists k: nat :: k < pl.depth && Loaded(pl, y, u, k)
  }

  lemma LoadedStays(pl: Plan, y: Sys, z: Sys, t: nat, u: nat, k: nat)
    requires Loaded(pl, y, u, k) && u != t && SeatsApart(pl, y, z, t) && z.pcs == y.pcs && Sized(pl, z)
    ensures Loaded(pl, z, u, k)
  {
    forall g: nat | Owns(pl, u, g) ensures z.seats[g] == y.seats[g] { OwnersApart(pl, u, t, g); }
  }

  /** The threads before `t` have a seat to spare, the others all of theirs. */
  ghost predicate SpareTo(pl: Plan, y: Sys, t: nat) {
    forall u: nat :: u < pl.threads ==> if u < t then Spare(pl, y, u) else Loaded(pl, y, u, 0)
  }

  lemma SpareNext(pl: Plan, y: Sys, z: Sys, t: nat, k: nat)
    requires SpareTo(pl, y, t) && t < pl.threads && SeatsApart(pl, y, z, t) && z.pcs == y.pcs && k < pl.depth && Loaded(pl, z, t, k)
    ensures SpareTo(pl, z, t + 1) && Sized(pl, z)
  {
    LoadedSized(pl, z, t, k);
    hide Loaded, Sized;
    forall u: nat | u < pl.threads ensures if u < t + 1 then Spare(pl, z, u) else Loaded(pl, z, u, 0) {
      if u < t {
        assert Spare(pl, y, u);
        var m: nat :| m < pl.depth && Loaded(pl, y, u, m);
        LoadedStays(pl, y, z, t, u, m);
      } else if u > t {
        LoadedStays(pl, y, z, t, u, 0);
      }
    }
  }

  /** `want` queries held on the threads from `t` on, each of which keeps a seat to spare. */
  lemma {:induction false} HoldAll(pl: Plan, y: Sys, t: nat, want: nat) returns (trace: seq<(nat, Ev)>, z: Sys)
    requires Sized(pl, y) && t <= pl.threads && PagesNeeded(pl.p) && want <= PageOff(pl.threads - t, pl.depth - 1)
    requires pl.mode.Steal? && y.nand + want <= pl.mode.qd && |y.nexts| == 1 && y.nexts[0] + want <= |pl.p.asks|
    requires SpareTo(pl, y, t)
    ensures Runs(pl, y, trace, z) && Sized(pl, z) && z.nand == y.nand + want && z.nexts == [y.nexts[0] + want]
    ensures SpareTo(pl, z, pl.threads)
    decreases pl.threads - t
  {
    hide *;
    NoSteps(pl, y);
    var left := pl.threads - t;
    if left == 0 {
      assert want == 0 by { NoPages(pl.depth - 1); }
      trace, z := [], y;
    } else {
      SpareHere(pl, y, t);
      var here := if want < pl.depth - 1 then want else pl.depth - 1;
      NextOff(left - 1, pl.depth - 1);
      var first, y1 := HoldSome(pl, y, t, 0, here);
      SpareNext(pl, y, y1, t, here);
      assert want - here <= PageOff(left - 1, pl.depth - 1) by { NotNegative(left - 1, pl.depth - 1); }
      var rest;
      rest, z := HoldAll(pl, y1, t + 1, want - here);
      RunsJoin(pl, y, first, y1, rest, z);
      trace := first + rest;
    }
  }

  lemma NoPages(x: nat)
    ensures PageOff(0, x) == 0
  {}

  lemma NotNegative(k: nat, x: nat)
    ensures PageOff(k, x) >= 0
  {}

  lemma SpareHere(pl: Plan, y: Sys, t: nat)
    requires SpareTo(pl, y, t) && t < pl.threads
    ensures Loaded(pl, y, t, 0)
  {}

  /** Threads up to `t` are past the test, those from there to `r` have a seat to spare. */
  ghost predicate Half(pl: Plan, y: Sys, t: nat, r: nat) {
    && Sized(pl, y) && t <= r <= pl.threads && |y.nexts| == 1
    && (forall u: nat :: u < t ==> y.pcs[u].Cleared?)
    && (forall u: nat :: t <= u < r ==> Spare(pl, y, u))
  }

  lemma {:induction false} ClearRest(pl: Plan, y: Sys, t: nat, r: nat) returns (trace: seq<(nat, Ev)>, z: Sys)
    requires Half(pl, y, t, r) && pl.mode.Steal? && y.nand < pl.mode.qd && y.nexts[0] + (r - t) <= |pl.p.asks|
    ensures Runs(pl, y, trace, z) && Half(pl, z, r, r) && z.nand == y.nand
    decreases r - t
  {
    if t == r {
      trace, z := [], y;
    } else {
      assert Spare(pl, y, t);
      var k: nat :| k < pl.depth && Loaded(pl, y, t, k);
      var first, y1 := ClearOne(pl, y, t, k);
      hide Admitted, Runs;
      forall u: nat | t < u < r ensures Spare(pl, y1, u) {
        assert Spare(pl, y, u);
        var m: nat :| m < pl.depth && Loaded(pl, y, u, m);
        StillLoaded(pl, y, y1, t, k, u, m);
      }
      var rest;
      hide Spare, Loaded;
      rest, z := ClearRest(pl, y1, t + 1, r);
      RunsJoin(pl, y, first, y1, rest, z);
      trace := first + rest;
    }
  }

  lemma StillLoaded(pl: Plan, y: Sys, z: Sys, t: nat, k: nat, u: nat, m: nat)
    requires Loaded(pl, y, u, m) && u != t && k < pl.depth && Base(pl, t) + k < |y.seats| == |z.seats| && Sized(pl, z)
    requires z.seats == y.seats[Base(pl, t) + k := z.seats[Base(pl, t) + k]] && t < |y.pcs| == |z.pcs| && z.pcs == y.pcs[t := z.pcs[t]]
    ensures Loaded(pl, z, u, m)
  {
    forall g: nat | Owns(pl, u, g) ensures z.seats[g] == y.seats[g] { OwnersApart(pl, u, t, g); }
  }

  lemma {:induction false} CountRest(pl: Plan, y: Sys, t: nat, r: nat) returns (trace: seq<(nat, Ev)>, z: Sys)
    requires Sized(pl, y) && t <= r <= pl.threads && pl.mode.Steal?
    requires forall u: nat :: t <= u < r ==> y.pcs[u].Cleared?
    ensures Runs(pl, y, trace, z) && z.nand == y.nand + (r - t)
    decreases r - t
  {
    if t == r {
      trace, z := [], y;
    } else {
      var y1 := Apply(pl, y, t, CountIn);
      var rest;
      rest, z := CountRest(pl, y1, t + 1, r);
      trace := [(t, CountIn)] + rest;
      assert trace[1..] == rest;
    }
  }

  // ------------------------------------------------------------ the most in flight

  /** The depth and one for every other thread, but no more than there are seats or queries. */
  function Most(pl: Plan): nat
    requires pl.mode.Steal? && pl.threads > 0
  {
    Min(pl.mode.qd + pl.threads - 1, Min(Base(pl, pl.threads), |pl.p.asks|))
  }

  /** With pages to fetch for every query some run has that many in flight at once. */
  lemma DepthReached(pl: Plan, y: Sys) returns (trace: seq<(nat, Ev)>, z: Sys)
    requires Start(pl, y) && pl.mode.Steal? && pl.mode.qd > 0 && PagesNeeded(pl.p)
    ensures Runs(pl, y, trace, z) && z.nand == Most(pl)
  {
    var r := Min(pl.threads, Most(pl));
    var held := Most(pl) - r;
    forall u: nat | u < pl.threads ensures Loaded(pl, y, u, 0) { OwnsInside(pl, y, u); }
    Dist(pl.depth - 1, 1, pl.threads);
    assert Base(pl, pl.threads) == PageOff(pl.threads, pl.depth - 1) + pl.threads;
    assert SpareTo(pl, y, 0);
    hide Loaded, Start;
    var a, y1 := HoldAll(pl, y, 0, held);
    var b, y2 := ClearRest(pl, y1, 0, r);
    var c;
    c, z := CountRest(pl, y2, 0, r);
    RunsJoin(pl, y, a, y1, b, y2);
    RunsJoin(pl, y, a + b, y2, c, z);
    trace := a + b + c;
  }

  /** Seats with a place in the count: held, or counted by one of the first `n` threads. */
  ghost function InFlight(y: Sys, n: nat): (r: seq<bool>)
    requires n <= |y.pcs|
    ensures |r| == |y.seats|
  {
    if n == 0 then HeldFlags(y.seats)
    else
      var f := InFlight(y, n - 1);
      var pc := y.pcs[n - 1];
      if pc.Counted? && pc.g < |f| then f[pc.g := true] else f
  }

  lemma CountedSeat(pl: Plan, y: Sys, t: nat)
    requires Inv(pl, y) && t < pl.threads && y.pcs[t].Counted?
    ensures y.pcs[t].g < |y.seats| && Owns(pl, t, y.pcs[t].g)
    ensures !y.seats[y.pcs[t].g].held && !y.seats[y.pcs[t].g].st.Empty?
  {
    hide NeedOf, Serial, Booked, ThreadsOk, NandOk, SourcesOk, AnswersOk;
    AtSeat(pl, y, t);
  }

  /** Every such seat counts once. */
  lemma {:induction false} InFlightCount(pl: Plan, y: Sys, n: nat)
    requires Inv(pl, y) && n <= pl.threads
    ensures Count(InFlight(y, n)) == Count(HeldFlags(y.seats)) + Count(CountedFlags(y.pcs[..n]))
    ensures forall g: nat :: g < |y.seats| && InFlight(y, n)[g] ==>
      y.seats[g].held || exists t: nat :: t < n && y.pcs[t].Counted? && y.pcs[t].g == g
  {
    assert |y.pcs| == pl.threads;
    hide Inv;
    if n > 0 {
      InFlightCount(pl, y, n - 1);
      assert CountedFlags(y.pcs[..n])[..n - 1] == CountedFlags(y.pcs[..n - 1]);
      var f := InFlight(y, n - 1);
      if y.pcs[n - 1].Counted? {
        var g := y.pcs[n - 1].g;
        CountedSeat(pl, y, n - 1);
        assert !f[g] by {
          if t: nat :| t < n - 1 && y.pcs[t].Counted? && y.pcs[t].g == g {
            CountedSeat(pl, y, t);
            OwnersApart(pl, t, n - 1, g);
          }
        }
        CountUpdate(f, g, true);
      }
    }
  }

  /** A seat with a place in the count has a query of its own. */
  lemma FlightSeated(pl: Plan, y: Sys, g: nat)
    requires Inv(pl, y) && g < |y.seats|
    requires y.seats[g].held || exists t: nat :: t < pl.threads && y.pcs[t].Counted? && y.pcs[t].g == g
    ensures On(y.seats, g, y.seats[g].qi) && y.seats[g].qi < |pl.p.asks|
  {
    hide Booked, ThreadsOk, NandOk, SourcesOk, AnswersOk;
    if y.seats[g].held {
      HeldSeat(pl, y, g);
    } else {
      var t: nat :| t < pl.threads && y.pcs[t].Counted? && y.pcs[t].g == g;
      CountedSeat(pl, y, t);
    }
    SeatedQuery(pl, y, g);
  }

  lemma SeatedQuery(pl: Plan, y: Sys, g: nat)
    requires Inv(pl, y) && g < |y.seats| && !y.seats[g].st.Empty?
    ensures On(y.seats, g, y.seats[g].qi) && y.seats[g].qi < |pl.p.asks|
  {
    hide ThreadsOk, NandOk, SourcesOk, AnswersOk, Unclaimed;
    assert On(y.seats, g, y.seats[g].qi);
  }

  lemma HeldSeat(pl: Plan, y: Sys, g: nat)
    requires Inv(pl, y) && g < |y.seats| && y.seats[g].held
    ensures !y.seats[g].st.Empty?
  {
    hide NeedOf, Serial, Booked, NandOk, SourcesOk, AnswersOk;
    var t := OwnerOf(pl, y, g);
    AtThread(pl, y, t);
  }

  /** No more are in flight than there are seats or queries. */
  lemma FlightBound(pl: Plan, y: Sys)
    requires Inv(pl, y)
    ensures y.nand <= Base(pl, pl.threads) && y.nand <= |pl.p.asks|
  {
    var f := InFlight(y, pl.threads);
    InFlightCount(pl, y, pl.threads);
    assert y.pcs[..pl.threads] == y.pcs;
    CountBound(f);
    var name := map g: nat | g < |y.seats| :: y.seats[g].qi;
    forall g: nat | g < |f| && f[g] ensures On(y.seats, g, name[g]) && name[g] < |pl.p.asks| { FlightSeated(pl, y, g); }
    forall g: nat, h: nat | g < h < |f| && f[g] && f[h] ensures name[g] != name[h] { OneSeat(pl, y, g, h); }
    hide Inv;
    CountNames(f, name, |pl.p.asks|);
  }

  lemma OneSeat(pl: Plan, y: Sys, g: nat, h: nat)
    requires Inv(pl, y) && g != h && g < |y.seats| && h < |y.seats| && On(y.seats, g, y.seats[g].qi) && On(y.seats, h, y.seats[h].qi)
    ensures y.seats[g].qi != y.seats[h].qi
  {
    hide ThreadsOk, NandOk, SourcesOk, AnswersOk, Unclaimed;
  }

  /** In no run are more in flight. */
  lemma DepthMost(pl: Plan, y: Sys, trace: seq<(nat, Ev)>, z: Sys)
    requires Start(pl, y) && pl.mode.Steal? && pl.mode.qd > 0 && Runs(pl, y, trace, z)
    ensures z.nand <= Most(pl)
  {
    DepthBound(pl, y, trace, z);
    StartInv(pl, y);
    RunKeeps(pl, y, trace, z);
    hide Inv;
    FlightBound(pl, z);
  }

  /** Some run exceeds the depth exactly with two threads or more, and more seats and more queries than the depth. */
  lemma ExceedsIff(pl: Plan, y: Sys)
    requires Start(pl, y) && pl.mode.Steal? && pl.mode.qd > 0 && PagesNeeded(pl.p)
    ensures (exists trace, z :: Runs(pl, y, trace, z) && z.nand > pl.mode.qd) <==>
            pl.threads >= 2 && Min(Base(pl, pl.threads), |pl.p.asks|) > pl.mode.qd
  {
    var trace, z := DepthReached(pl, y);
    assert pl.threads > 0;
    hide Runs, Start, PagesNeeded, Base;
    forall trace, z | Runs(pl, y, trace, z) ensures z.nand <= Most(pl) { DepthMost(pl, y, trace, z); }
  }

  /** At the default depth, one for each thread, some run exceeds it exactly with two threads or more, two seats each or more, and a query more than threads. */
  lemma DefaultDepthExceeded(pl: Plan, y: Sys)
    requires Start(pl, y) && pl.mode == Steal(EffectiveIssueQd(0, pl.threads)) && PagesNeeded(pl.p)
    ensures (exists trace, z :: Runs(pl, y, trace, z) && z.nand > pl.threads) <==>
            pl.threads >= 2 && pl.depth >= 2 && |pl.p.asks| > pl.threads
  {
    hide *;
    DefaultSeats(pl, y);
    ExceedsIff(pl, y);
    MinAbove(Base(pl, pl.threads), |pl.p.asks|, pl.threads);
  }

  lemma MinAbove(a: nat, b: nat, n: nat)
    ensures Min(a, b) > n <==> a > n && b > n
  {}

  /** More seats than threads are two seats a thread or more. */
  lemma DefaultSeats(pl: Plan, y: Sys)
    requires Start(pl, y) && pl.mode == Steal(EffectiveIssueQd(0, pl.threads))
    ensures pl.mode.Steal? && pl.mode.qd == pl.threads > 0 && (Base(pl, pl.threads) > pl.threads <==> pl.depth >= 2)
  {
    assert pl.threads > 0 && pl.depth > 0;
    hide Start;
    StepMul(1, pl.depth, pl.threads);
    assert Base(pl, pl.threads) == pl.depth * pl.threads;
  }

  // ------------------------------------------------------------ settings

  /** Every query has pages to fetch exactly when each one's entry has a code. */
  lemma PagesNeededIff(p: Setup)
    requires GoodSetup(p)
    ensures PagesNeeded(p) <==> forall qi: nat :: qi < |p.asks| ==> p.asks[qi].entry < |p.asks[qi].index.pq|
  {
    forall qi: nat | qi < |p.asks| ensures NeedOf(p, Serial(p, qi).cand) != [] <==> p.asks[qi].entry < |p.asks[qi].index.pq| {
      var a := p.asks[qi];
      InitKeeps(a.index, p.limit, a.entry);
      BeamGrows(a.index, p.limit, p.iters, Init(a.index, p.limit, a.entry));
      SerialInRange(p, qi, Serial(p, qi).cand);
      NeedEmpty(p, Serial(p, qi).cand);
    }
  }

  /** One node on one page, asked for three times. */
  ghost const SMALL: Setup :=
    Setup(seq(3, _ => Ask(Index([[]], [0.0]), 0, _ => 0.0)), 1, 0, 1, W.Config([0], 1, 1, 0, 0, false), [0], 1, [[0]])

  ghost const TWO_THREADS: Plan := Plan(SMALL, 2, 2, Steal(2))

  ghost const AT_REST: Sys :=
    Sys([EmptySeat(), EmptySeat(), EmptySeat(), EmptySeat()], [Top, Top], [Image, Image], [0], 0, map[])

  lemma AtRest()
    ensures Start(TWO_THREADS, AT_REST) && PagesNeeded(SMALL) && Base(TWO_THREADS, 2) == 4
  {
    assert GoodSetup(SMALL);
    PagesNeededIff(SMALL);
    assert Base(TWO_THREADS, 2) == 4;
  }

  /** Two threads with two seats each, a depth of two and three queries: three may be in flight at once. */
  lemma ThreeAtDepthTwo() returns (trace: seq<(nat, Ev)>, z: Sys)
    ensures Start(TWO_THREADS, AT_REST) && TWO_THREADS.mode == Steal(2)
    ensures Runs(TWO_THREADS, AT_REST, trace, z) && z.nand == 3
  {
    AtRest();
    hide Start, PagesNeeded, Base;
    trace, z := DepthReached(TWO_THREADS, AT_REST);
  }

  /** With a depth of four, which is all their seats, they keep to it, though each counts after it has tested. */
  lemma FourKeepToFour(pl: Plan, y: Sys, trace: seq<(nat, Ev)>, z: Sys)
    requires Start(pl, y) && pl.mode == Steal(4) && pl.threads == 2 && pl.depth == 2 && Runs(pl, y, trace, z)
    ensures z.nand <= 4
  {
    DepthMost(pl, y, trace, z);
    assert Base(pl, 2) == 4;
  }
}
