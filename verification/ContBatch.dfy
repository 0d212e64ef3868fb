/** The per-thread scheduling decisions of serving/cont_batch.hpp. */
module ContBatch {
  import opened Common
  import PageMath

  datatype CbSt = Empty | Ready | Wait | Busy | Done | Hold

  datatype Act = Fill(slot: nat) | Rank(slot: nat) | WaitFor(slot: nat) | Finished | Pump(slot: nat) | Issue(slot: nat)

  /** What the scans look for; `Scorable` also asks that the seat's pages be covered. */
  datatype Kind = Held | Vacant | Scorable | Parked | Waiting | Fresh | Covered

  predicate Is(k: Kind, st: CbSt, cov: bool) {
    match k
    case Held => st.Hold?
    case Vacant => st.Empty?
    case Scorable => (st.Wait? || st.Ready?) && cov
    case Parked => st.Wait? || st.Hold?
    case Waiting => st.Wait? || st.Ready?
    case Fresh => st.Ready?
    case Covered => st.Wait? && cov
  }

  /** The first seat of a kind among the first `n`. */
  function FirstOf(k: Kind, st: seq<CbSt>, cov: seq<bool>, n: nat): (r: Option<nat>)
    requires |cov| == |st| && n <= |st|
    ensures r.Some? ==> r.value < n && Is(k, st[r.value], cov[r.value])
    ensures forall j :: 0 <= j < (if r.Some? then r.value else n) ==> !Is(k, st[j], cov[j])
  {
    if n == 0 then None
    else
      var r := FirstOf(k, st, cov, n - 1);
      if r.Some? then r else if Is(k, st[n - 1], cov[n - 1]) then Some(n - 1) else None
  }

  /** The first seat of a kind. */
  function First(k: Kind, st: seq<CbSt>, cov: seq<bool>): (r: Option<nat>)
    requires |cov| == |st|
    ensures r.Some? ==> r.value < |st| && Is(k, st[r.value], cov[r.value])
    ensures forall j :: 0 <= j < (if r.Some? then r.value else |st|) ==> !Is(k, st[j], cov[j])
  {
    FirstOf(k, st, cov, |st|)
  }

  method FindSeat(k: Kind, st: seq<CbSt>, cov: seq<bool>) returns (r: Option<nat>)
    requires |cov| == |st|
    ensures r == First(k, st, cov)
  {
    for i := 0 to |st|
      invariant forall j :: 0 <= j < i ==> !Is(k, st[j], cov[j])
    {
      if Is(k, st[i], cov[i]) { return Some(i); }
    }
    return None;
  }

  predicate IssueQdOk(inflight: nat, qd: nat) {
    qd == 0 || inflight < qd
  }

  /** The issue depth asked for; none asked for means one wave per compute thread. It is never the unlimited depth 0. */
  function EffectiveIssueQd(cli: nat, threads: int): (r: nat)
    ensures r > 0 && IssueQdOk(0, r)
    ensures (cli > 0 ==> r == cli) && (cli == 0 && threads > 0 ==> r == threads) && (cli == 0 && threads <= 0 ==> r == 1)
  {
    if cli == 0 then (if threads > 0 then threads else 1) else cli
  }

  /** `steal_decide`: issue a held seat, fill an empty one, rank a covered one, else pump, else leave. */
  function StealDecide(st: seq<CbSt>, cov: seq<bool>, hasMore: bool, qdOk: bool): Act
    requires |cov| == |st|
  {
    var hold, empty := First(Held, st, cov), First(Vacant, st, cov);
    var rank, parked := First(Scorable, st, cov), First(Parked, st, cov);
    if qdOk && hold.Some? then Issue(hold.value)
    else if hasMore && empty.Some? then Fill(empty.value)
    else if rank.Some? then Rank(rank.value)
    else if parked.Some? then Pump(parked.value)
    else Finished
  }

  /** No seat of a kind. */
  predicate Without(k: Kind, st: seq<CbSt>, cov: seq<bool>, n: nat)
    requires |cov| == |st| && n <= |st|
  {
    forall j :: 0 <= j < n ==> !Is(k, st[j], cov[j])
  }

  /** The seat in place `i` is the first of a kind. */
  predicate IsFirst(k: Kind, st: seq<CbSt>, cov: seq<bool>, i: nat)
    requires |cov| == |st|
  {
    i < |st| && Is(k, st[i], cov[i]) && Without(k, st, cov, i)
  }

  method DecideSteal(st: seq<CbSt>, cov: seq<bool>, hasMore: bool, qdOk: bool) returns (d: Act)
    requires |cov| == |st|
    ensures d == StealDecide(st, cov, hasMore, qdOk)
    ensures match d
      case Issue(i) => qdOk && IsFirst(Held, st, cov, i)
      case Fill(i) => hasMore && IsFirst(Vacant, st, cov, i) && (qdOk ==> Without(Held, st, cov, |st|))
      case Rank(i) => IsFirst(Scorable, st, cov, i) && (hasMore ==> Without(Vacant, st, cov, |st|)) && (qdOk ==> Without(Held, st, cov, |st|))
      case Pump(i) => IsFirst(Parked, st, cov, i) && Without(Scorable, st, cov, |st|) && (hasMore ==> Without(Vacant, st, cov, |st|))
      case Finished => Without(Parked, st, cov, |st|) && Without(Scorable, st, cov, |st|) && (hasMore ==> Without(Vacant, st, cov, |st|))
      case WaitFor(_) => false
  {
    if qdOk {
      var h := FindSeat(Held, st, cov);
      if h.Some? { return Issue(h.value); }
    }
    if hasMore {
      var e := FindSeat(Vacant, st, cov);
      if e.Some? { return Fill(e.value); }
    }
    var r := FindSeat(Scorable, st, cov);
    if r.Some? { return Rank(r.value); }
    var p := FindSeat(Parked, st, cov);
    if p.Some? { return Pump(p.value); }
    return Finished;
  }

  /** `pipe2_decide`: fill an empty seat, rank a covered one, else wait for one, else leave. */
  function Pipe2Decide(st: seq<CbSt>, cov: seq<bool>, hasMore: bool): Act
    requires |cov| == |st|
  {
    var empty, rank, parked := First(Vacant, st, cov), First(Scorable, st, cov), First(Waiting, st, cov);
    if hasMore && empty.Some? then Fill(empty.value)
    else if rank.Some? then Rank(rank.value)
    else if parked.Some? then WaitFor(parked.value)
    else Finished
  }

  method DecidePipe2(st: seq<CbSt>, cov: seq<bool>, hasMore: bool) returns (d: Act)
    requires |cov| == |st|
    ensures d == Pipe2Decide(st, cov, hasMore)
    ensures match d
      case Fill(i) => hasMore && IsFirst(Vacant, st, cov, i)
      case Rank(i) => IsFirst(Scorable, st, cov, i) && (hasMore ==> Without(Vacant, st, cov, |st|))
      case WaitFor(i) => IsFirst(Waiting, st, cov, i) && Without(Scorable, st, cov, |st|) && (hasMore ==> Without(Vacant, st, cov, |st|))
      case Finished => Without(Waiting, st, cov, |st|) && (hasMore ==> Without(Vacant, st, cov, |st|))
      case _ => false
  {
    if hasMore {
      var e := FindSeat(Vacant, st, cov);
      if e.Some? { return Fill(e.value); }
    }
    var r := FindSeat(Scorable, st, cov);
    if r.Some? { return Rank(r.value); }
    var p := FindSeat(Waiting, st, cov);
    if p.Some? { return WaitFor(p.value); }
    return Finished;
  }

  /**
   When `steal_decide` leaves: no seat is parked, none can be ranked, and no
   empty seat goes with a query left to admit.  A Ready seat that is not
   covered does not stop it.
   */
  lemma StealLeaves(st: seq<CbSt>, cov: seq<bool>, hasMore: bool, qdOk: bool)
    requires |cov| == |st|
    ensures StealDecide(st, cov, hasMore, qdOk).Finished? <==>
      && (forall i :: 0 <= i < |st| ==> !st[i].Wait? && !st[i].Hold? && !(st[i].Ready? && cov[i]))
      && (hasMore ==> forall i :: 0 <= i < |st| ==> !st[i].Empty?)
  {
    var hold, empty := First(Held, st, cov), First(Vacant, st, cov);
    var rank, parked := First(Scorable, st, cov), First(Parked, st, cov);
    forall i | 0 <= i < |st| && Is(Held, st[i], cov[i]) ensures Is(Parked, st[i], cov[i]) {}
  }

  /** When `pipe2_decide` leaves: nothing waits, nothing is ready, and no empty seat goes with a query left. */
  lemma Pipe2Leaves(st: seq<CbSt>, cov: seq<bool>, hasMore: bool)
    requires |cov| == |st|
    ensures Pipe2Decide(st, cov, hasMore).Finished? <==>
      && (forall i :: 0 <= i < |st| ==> !st[i].Wait? && !st[i].Ready?)
      && (hasMore ==> forall i :: 0 <= i < |st| ==> !st[i].Empty?)
  {
    var empty, rank, parked := First(Vacant, st, cov), First(Scorable, st, cov), First(Waiting, st, cov);
    forall i | 0 <= i < |st| && Is(Scorable, st[i], cov[i]) ensures Is(Waiting, st[i], cov[i]) {}
  }

  /** Seat `j` places on from `start`. */
  function Around(start: nat, j: nat, n: nat): (r: nat)
    requires n > 0
    ensures r < n
  {
    (start + j) % n
  }

  /** Seat `i`, `j` places on from `start`, is of a kind, and no seat passed on the way there is. */
  ghost predicate FoundAt(k: Kind, st: seq<CbSt>, cov: seq<bool>, start: nat, j: nat, i: nat)
    requires |cov| == |st| > 0
  {
    && i == Around(start, j, |st|) && Is(k, st[i], cov[i])
    && forall l :: 0 <= l < j ==> !Is(k, st[Around(start, l, |st|)], cov[Around(start, l, |st|)])
  }

  /** The first seat of a kind, looking `n` places on from `start`. */
  function Turn(k: Kind, st: seq<CbSt>, cov: seq<bool>, start: nat, n: nat): (r: Option<nat>)
    requires |cov| == |st| > 0
    ensures r.Some? ==> exists j: nat :: j < n && FoundAt(k, st, cov, start, j, r.value)
    ensures r.None? ==> forall j :: 0 <= j < n ==> !Is(k, st[Around(start, j, |st|)], cov[Around(start, j, |st|)])
  {
    if n == 0 then None
    else
      var r := Turn(k, st, cov, start, n - 1);
      var i := Around(start, n - 1, |st|);
      assert r.None? && Is(k, st[i], cov[i]) ==> FoundAt(k, st, cov, start, n - 1, i);
      if r.Some? then r else if Is(k, st[i], cov[i]) then Some(i) else None
  }

  /** `pick_pq`: from `start` on and around, the first Ready seat, else the first Wait seat that is covered. */
  function Pick(st: seq<CbSt>, cov: seq<bool>, start: nat): (r: Option<nat>)
    requires |cov| == |st|
    ensures r.Some? ==> r.value < |st| && (st[r.value].Ready? || (st[r.value].Wait? && cov[r.value]))
    ensures r.Some? && st[r.value].Wait? ==> forall i :: 0 <= i < |st| ==> !st[i].Ready?
    ensures r.Some? && st[r.value].Ready? ==> exists j: nat :: j < |st| && FoundAt(Fresh, st, cov, start, j, r.value)
    ensures r.Some? && st[r.value].Wait? ==> exists j: nat :: j < |st| && FoundAt(Covered, st, cov, start, j, r.value)
    ensures r.None? ==> forall i :: 0 <= i < |st| ==> !st[i].Ready? && !(st[i].Wait? && cov[i])
  {
    if |st| == 0 then None
    else
      AllAround(Fresh, st, cov, start);
      AllAround(Covered, st, cov, start);
      var ready := Turn(Fresh, st, cov, start, |st|);
      if ready.Some? then ready else Turn(Covered, st, cov, start, |st|)
  }

  /** A whole turn looks at every seat. */
  lemma AllAround(k: Kind, st: seq<CbSt>, cov: seq<bool>, start: nat)
    requires |cov| == |st| > 0
    ensures Turn(k, st, cov, start, |st|).None? ==> forall i :: 0 <= i < |st| ==> !Is(k, st[i], cov[i])
  {
    if Turn(k, st, cov, start, |st|).None? {
      forall i: nat | i < |st| ensures !Is(k, st[i], cov[i]) {
        var j := PageMath.Reach(start, |st|, i);
        assert Around(start, j, |st|) == i;
      }
    }
  }

  /** `merge_unique_pages` and the page lists of one query: first mentions, in order. */
  function Unique(pages: seq<nat>): (r: seq<nat>)
    ensures Distinct(r) && (forall p :: p in r <==> p in pages) && |r| <= |pages|
  {
    if pages == [] then []
    else
      var r := Unique(pages[..|pages| - 1]);
      var p := pages[|pages| - 1];
      assert pages == pages[..|pages| - 1] + [p];
      if p in r then r else r + [p]
  }

  /** A page listed before another was mentioned before the other's first mention. */
  lemma {:induction false} UniqueInOrder(pages: seq<nat>, i: nat, j: nat, at: nat)
    requires i < j < |Unique(pages)| && at < |pages| && pages[at] == Unique(pages)[j]
    ensures Unique(pages)[i] in pages[..at]
  {
    var n := |pages| - 1;
    var r := Unique(pages[..n]);
    assert at < n ==> pages[..n][..at] == pages[..at] && pages[..n][at] == pages[at];
    assert i < |r| && r[i] in r;
    if j < |r| && at < n { UniqueInOrder(pages[..n], i, j, at); }
  }
}
