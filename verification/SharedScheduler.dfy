/**
 The shared continuous-batch scheduler of serving/search_beam.cpp: workers take
 seats from one pool under a lock, work on them unlocked, and hand them back
 under the lock.
 */
module SharedScheduler {
  import opened Common
  import opened ContBatch
  import opened BeamSpec
  import opened Query
  import opened Seats
  import opened Ledger
  import opened SharedReads

  datatype Pc =
    | Top
    | Locking                 // saw unfinished queries; about to take the lock
    | Own(g: nat)             // took a seat
    | Tried(g: nat)           // its pages are known; about to rank
    | Handing(g: nat, read: seq<Reading>)    // about to hand the seat back; what its rank attempt read
    | Left

  /** `read` records, for each answered query, what the rank that scored it read. */
  datatype Sys = Sys(seats: seq<Seat>, pcs: seq<Pc>, nexts: seq<nat>, finished: nat,
                     results: map<nat, seq<nat>>, read: map<nat, seq<Reading>>)

  datatype Ev =
    | Look
    | Enter(cov: seq<bool>, start: nat)
    | Start(tok: Option<nat>)
    | Resume
    | Rank(try: bool, now: bool, readings: seq<Reading>)
    | Hand(sorted: seq<Cand>)

  /** `pqq_init`. */
  ghost function NewSeat(p: Setup, qi: nat): Seat
    requires GoodSetup(p) && qi < |p.asks|
  {
    Seat(Ready, qi, Init(p.asks[qi].index, p.limit, p.asks[qi].entry), [], [], false)
  }

  function Statuses(seats: seq<Seat>): (r: seq<CbSt>)
    ensures |r| == |seats|
  {
    seq(|seats|, i requires 0 <= i < |seats| => seats[i].st)
  }

  /** `admit`: fill empty seats, first one first, while queries are left. */
  ghost function Admit(p: Setup, seats: seq<Seat>, nexts: seq<nat>): (r: (seq<Seat>, seq<nat>))
    requires GoodSetup(p) && |nexts| == 1
    ensures |r.0| == |seats| && |r.1| == 1
    decreases |p.asks| - nexts[0]
  {
    var cov := seq(|seats|, _ => false);
    if nexts[0] >= |p.asks| then (seats, nexts)
    else
      match First(Vacant, Statuses(seats), cov)
      case None => (seats, nexts)
      case Some(g) => Admit(p, seats[g := NewSeat(p, nexts[0])], Take(nexts, 0))
  }

  /** Coverage may come out either way. */
  ghost predicate Enabled(p: Setup, y: Sys, t: nat, e: Ev)
    requires GoodSetup(p) && t < |y.pcs| && |y.nexts| == 1
  {
    match e
    case Look => y.pcs[t].Top?
    case Enter(cov, _) => y.pcs[t].Locking? && |cov| == |y.seats|
    case Start(tok) =>
      && y.pcs[t].Own? && y.pcs[t].g < |y.seats| && y.seats[y.pcs[t].g].need == []
      && y.seats[y.pcs[t].g].qi < |p.asks|
      && Closed(p.asks[y.seats[y.pcs[t].g].qi].index, y.seats[y.pcs[t].g].q)
    case Resume => y.pcs[t].Own? && y.pcs[t].g < |y.seats| && y.seats[y.pcs[t].g].need != []
    case Rank(try, now, readings) =>
      && y.pcs[t].Tried? && y.pcs[t].g < |y.seats| && y.seats[y.pcs[t].g].qi < |p.asks|
      && (y.seats[y.pcs[t].g].need == [] ==> try && now)
      && |readings| == |y.seats[y.pcs[t].g].q.cand| && forall i :: 0 <= i < |readings| ==> FromValid(p.cache, readings[i])
    case Hand(sorted) => y.pcs[t].Handing? && y.pcs[t].g < |y.seats| && SortOf(y.seats[y.pcs[t].g].q.cand, sorted)
  }

  /** The score each candidate's read gives, if it comes through. */
  ghost function Scores(p: Setup, qi: nat, cand: seq<Cand>, readings: seq<Reading>): (r: seq<Option<real>>)
    requires GoodSetup(p) && qi < |p.asks| && |readings| == |cand|
    ensures |r| == |cand|
  {
    seq(|cand|, i requires 0 <= i < |cand| =>
      if cand[i].id >= |p.vecOff| then None
      else match BytesRead(p.cache, p.vecOff[cand[i].id], p.vecBytes, readings[i])
        case None => None
        case Some(bytes) => Some(p.asks[qi].metric(bytes)))
  }

  /** Every pointer was followed while its frame still held the page. */
  ghost predicate PointersHeld(p: Setup, cand: seq<Cand>, readings: seq<Reading>)
    requires GoodSetup(p) && |readings| == |cand|
  {
    forall i :: 0 <= i < |cand| && cand[i].id < |p.vecOff| ==> StillHeld(p.cache, p.vecOff[cand[i].id], readings[i])
  }

  function Go(y: Sys, t: nat, pc: Pc): Sys
    requires t < |y.pcs|
  {
    y.(pcs := y.pcs[t := pc])
  }

  function Put(y: Sys, g: nat, s: Seat): Sys
    requires g < |y.seats|
  {
    y.(seats := y.seats[g := s])
  }

  /** The critical section: admit, pick, and mark the pick Busy. */
  ghost function EnterStep(p: Setup, y: Sys, t: nat, cov: seq<bool>, start: nat): Sys
    requires GoodSetup(p) && t < |y.pcs| && |y.nexts| == 1 && |cov| == |y.seats|
  {
    var (seats, nexts) := Admit(p, y.seats, y.nexts);
    var y1 := y.(seats := seats, nexts := nexts);
    match ContBatch.Pick(Statuses(seats), cov, start)
    case None => Go(y1, t, Top)
    case Some(g) => Go(Put(y1, g, seats[g].(st := Busy)), t, Own(g))
  }

  ghost function RankedSeat(s: Seat, try: bool, now: bool, got: seq<Option<real>>): Seat
    requires |got| == |s.q.cand|
  {
    if try && now then
      s.(q := s.q.(cand := Ranked(s.q.cand, got)), st := if Got(got, |got|) then Done else s.st)
    else s
  }

  ghost function Apply(p: Setup, y: Sys, t: nat, e: Ev): Sys
    requires GoodSetup(p) && t < |y.pcs| && |y.nexts| == 1 && Enabled(p, y, t, e)
  {
    match e
    case Look => Go(y, t, if y.finished < |p.asks| then Locking else Left)
    case Enter(cov, start) => EnterStep(p, y, t, cov, start)
    case Start(tok) =>
      var g := y.pcs[t].g;
      var s := y.seats[g];
      Go(Put(y, g, Issued(p, s.(q := Beam(p.asks[s.qi].index, p.limit, p.iters, s.q)), tok)), t, Tried(g))
    case Resume => Go(y, t, Tried(y.pcs[t].g))
    case Rank(try, now, readings) =>
      var g := y.pcs[t].g;
      var got := Scores(p, y.seats[g].qi, y.seats[g].q.cand, readings);
      Go(Put(y, g, RankedSeat(y.seats[g], try, now, got)), t, Handing(g, readings))
    case Hand(sorted) =>
      var g := y.pcs[t].g;
      var s := y.seats[g];
      if s.st.Done? then
        Go(Put(y, g, EmptySeat()).(results := y.results[s.qi := Outcome(p, sorted)], finished := y.finished + 1,
                                   read := y.read[s.qi := y.pcs[t].read]), t, Top)
      else Go(Put(y, g, if s.st.Busy? then s.(st := Wait) else s), t, Top)
  }

  // ------------------------------------------------------------ the invariant

  /** The distance each candidate carries is the score its reading gave. */
  ghost predicate Carries(p: Setup, qi: nat, cand: seq<Cand>, readings: seq<Reading>)
    requires GoodSetup(p) && qi < |p.asks|
  {
    && |readings| == |cand| && (forall i :: 0 <= i < |readings| ==> FromValid(p.cache, readings[i]))
    && forall i :: 0 <= i < |cand| ==> Scores(p, qi, cand, readings)[i] == Some(cand[i].dist)
  }

  /** The serial beam's candidates, in their order, with the distances these scores give. */
  ghost function Rescored(p: Setup, qi: nat, score: seq<real>): seq<Cand>
    requires GoodSetup(p) && qi < |p.asks| && |score| == |p.vecOff|
  {
    SerialInRange(p, qi, Serial(p, qi).cand);
    var cand := Serial(p, qi).cand;
    seq(|cand|, i requires 0 <= i < |cand| => Cand(score[cand[i].id], cand[i].id))
  }

  /** An answer is a k-prefix of the serial beam's candidates by the scores these readings give. */
  ghost predicate Chosen(p: Setup, qi: nat, readings: seq<Reading>, out: seq<nat>)
    requires GoodSetup(p) && qi < |p.asks|
  {
    exists score: seq<real> :: |score| == |p.vecOff| && Carries(p, qi, Rescored(p, qi, score), readings) && ByScore(p, qi, score, out)
  }

  ghost predicate ByScore(p: Setup, qi: nat, score: seq<real>, out: seq<nat>)
    requires GoodSetup(p) && qi < |p.asks| && |score| == |p.vecOff|
  {
    SerialInRange(p, qi, Serial(p, qi).cand);
    KPrefix(score, Ids(Serial(p, qi).cand), p.k, out)
  }

  ghost predicate Free(p: Setup, s: Seat)
    requires GoodSetup(p)
  {
    match s.st
    case Empty => s == EmptySeat()
    case Ready => s.qi < |p.asks| && s == NewSeat(p, s.qi)
    case Wait => Tracked(p, s) && s.need == NeedOf(p, s.q.cand) != []
    case _ => false
  }

  ghost predicate AtWork(p: Setup, pc: Pc, s: Seat)
    requires GoodSetup(p)
  {
    match pc
    case Own(_) =>
      && s.st.Busy?
      && (if s.need == [] then s.qi < |p.asks| && s == NewSeat(p, s.qi).(st := Busy)
          else Tracked(p, s) && s.need == NeedOf(p, s.q.cand))
    case Tried(_) => s.st.Busy? && Tracked(p, s) && s.need == NeedOf(p, s.q.cand)
    case Handing(_, read) =>
      || (s.st.Busy? && Tracked(p, s) && s.need == NeedOf(p, s.q.cand) != [])
      || (s.st.Done? && Tracked(p, s) && Carries(p, s.qi, s.q.cand, read))
    case _ => true
  }

  predicate Owning(pc: Pc) {
    pc.Own? || pc.Tried? || pc.Handing?
  }

  ghost predicate Holds(pcs: seq<Pc>, t: nat, g: nat) {
    t < |pcs| && Owning(pcs[t]) && pcs[t].g == g
  }

  ghost predicate Taken(pcs: seq<Pc>, g: nat) {
    exists t: nat :: Holds(pcs, t, g)
  }

  /** A seat is in the pool, or it is Busy or Done and in the hands of exactly one worker. */
  ghost predicate Hands(p: Setup, y: Sys)
    requires GoodSetup(p)
  {
    && (forall t: nat, g: nat :: Holds(y.pcs, t, g) ==> g < |y.seats| && AtWork(p, y.pcs[t], y.seats[g]))
    && (forall t: nat, u: nat, g: nat :: Holds(y.pcs, t, g) && Holds(y.pcs, u, g) ==> t == u)
    && (forall g: nat :: g < |y.seats| && !Taken(y.pcs, g) ==> Free(p, y.seats[g]))
  }

  /** Every answer is counted, and recorded with what its rank read. */
  ghost predicate AnswersOk(p: Setup, y: Sys)
    requires GoodSetup(p)
  {
    && y.finished == |y.results| && y.read.Keys == y.results.Keys
    && forall qi :: qi in y.results ==> qi < |p.asks| && Chosen(p, qi, y.read[qi], y.results[qi])
  }

  ghost predicate Inv(p: Setup, y: Sys) {
    && GoodSetup(p) && |y.nexts| == 1
    && Hands(p, y)
    && Booked(|p.asks|, y.seats, y.results, y.nexts)
    && AnswersOk(p, y)
    && (forall t :: 0 <= t < |y.pcs| && y.pcs[t].Left? ==> y.finished >= |p.asks|)
  }

  ghost predicate Init0(p: Setup, y: Sys) {
    && GoodSetup(p) && y.nexts == [0] && y.finished == 0 && y.results == map[] && y.read == map[]
    && (forall g :: 0 <= g < |y.seats| ==> y.seats[g] == EmptySeat())
    && (forall t :: 0 <= t < |y.pcs| ==> y.pcs[t].Top?)
  }
}
