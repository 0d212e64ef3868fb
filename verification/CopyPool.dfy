/**
 The page-copy worker pool (serving/page_copy_pool.hpp).  Each method is one
 atomic step of the submitter or of a worker; any interleaving of them is a
 run.  What a job does is the business of its submitter; here it is run or it
 is not.
 */
module CopyPools {
  import opened Common
  import opened Counting

  /** A page copy with an optional ready flag to raise, or a function to call. */
  datatype Job = Copy(src: nat, dst: nat, len: nat, ready: Option<nat>) | Call(fn: nat)

  datatype Worker = Idle | Holding(job: Job) | Ran(job: Job) | Gone

  /** Old entries are dropped once they are most of a long queue. */
  function Compacted(q: seq<Job>, head: nat): (r: (seq<Job>, nat))
    requires head <= |q|
    ensures r.1 <= |r.0| && r.0[r.1..] == q[head..]
    ensures r.1 * 2 <= |r.0| || r.1 <= 1024
  {
    if head > 1024 && head * 2 > |q| then (q[head..], 0) else (q, head)
  }

  function Busy(doing: seq<Option<nat>>): (r: seq<bool>) {
    seq(|doing|, t requires 0 <= t < |doing| => doing[t].Some?)
  }

  class PageCopyPool {
    var q: seq<Job>
    var qHead: nat
    var inflight: int
    var stop: bool
    var workers: seq<Worker>
    ghost var submitted: seq<Job>        // every job ever queued, in order
    ghost var taken: nat                 // how many have left the queue
    ghost var doing: seq<Option<nat>>    // which of them each worker is on
    ghost var runs: seq<nat>             // how often each has been run
    ghost var announced: nat             // counted in, not queued yet

    ghost predicate Queues()
      reads this
    {
      && qHead <= |q| && taken <= |submitted| && q[qHead..] == submitted[taken..]
      && (forall t :: 0 <= t < |workers| && workers[t].Gone? ==> stop)
      && (qHead < |q| ==> Staffed())
    }

    /** Some worker has not left. */
    ghost predicate Staffed()
      reads this`workers
    {
      exists t :: 0 <= t < |workers| && !workers[t].Gone?
    }

    /** A job has run once it has left the queue, unless a worker still holds it unrun. */
    ghost predicate Once()
      reads this
    {
      && |doing| == |workers| && |runs| == |submitted|
      && (forall t :: 0 <= t < |doing| ==> (doing[t].Some? <==> workers[t].Holding? || workers[t].Ran?))
      && (forall t :: 0 <= t < |doing| && doing[t].Some? ==>
            doing[t].value < taken <= |submitted| && submitted[doing[t].value] == workers[t].job
            && runs[doing[t].value] == if workers[t].Ran? then 1 else 0)
      && (forall t, u :: 0 <= t < u < |doing| && doing[t].Some? ==> doing[t] != doing[u])
      && (forall i: nat :: i < taken && i < |runs| && Some(i) !in doing ==> runs[i] == 1)
      && (forall i: nat :: taken <= i < |runs| ==> runs[i] == 0)
    }

    ghost predicate Counted()
      reads this
    {
      taken <= |submitted| && inflight == announced + (|submitted| - taken) + Count(Busy(doing))
    }

    ghost predicate Valid()
      reads this
    {
      Queues() && Once() && Counted()
    }

    constructor (w: nat)
      ensures Valid() && submitted == [] && runs == [] && announced == 0 && !stop && q == [] && qHead == 0
      ensures |workers| == (if w == 0 then 1 else w) && forall t :: 0 <= t < |workers| ==> workers[t].Idle?
    {
      var count := if w == 0 then 1 else w;
      q, qHead, inflight, stop := [], 0, 0, false;
      workers := seq(count, _ => Idle);
      submitted, taken, runs, announced := [], 0, [], 0;
      doing := seq(count, _ => None);
      new;
      CountNone(count);
      assert Busy(doing) == seq(count, _ => false);
    }

    /** `inflight.fetch_add`, before the jobs are queued. */
    method Announce(n: nat)
      requires Valid()
      modifies this`inflight, this`announced
      ensures Valid() && announced == old(announced) + n && inflight == old(inflight) + n
    {
      inflight := inflight + n;
      announced := announced + n;
    }

    /** The locked half of the submit methods: the jobs are in good hands exactly when some worker has not left. */
    method Push(jobs: seq<Job>)
      requires Valid() && |jobs| <= announced
      modifies this`q, this`qHead, this`submitted, this`runs, this`announced
      ensures Valid() <==> jobs == [] || Staffed()
      ensures submitted == old(submitted) + jobs && announced == old(announced) - |jobs|
      ensures runs == old(runs) + seq(|jobs|, _ => 0)
    {
      hide Compacted, Count, Staffed;
      var c := Compacted(q, qHead);
      q, qHead := c.0 + jobs, c.1;
      assert q[qHead..] == c.0[c.1..] + jobs;
      submitted := submitted + jobs;
      announced := announced - |jobs|;
      runs := runs + seq(|jobs|, _ => 0);
      assert submitted[taken..] == old(submitted[taken..]) + jobs;
      assert qHead < |q| <==> q[qHead..] != [];
      assert old(qHead < |q|) <==> old(q[qHead..]) != [];
    }

    /** A worker takes the job at the head: the first submitted of those not taken. */
    method Take(t: nat)
      requires Valid() && t < |workers| && workers[t].Idle? && qHead < |q|
      modifies this`qHead, this`workers, this`taken, this`doing
      ensures Valid() && workers == old(workers)[t := Holding(submitted[old(taken)])]
      ensures taken == old(taken) + 1
    {
      hide Count;
      assert q[qHead] == q[qHead..][0] == submitted[taken];
      assert q[qHead + 1..] == q[qHead..][1..] && submitted[taken + 1..] == submitted[taken..][1..];
      ghost var was := doing;
      workers := workers[t := Holding(q[qHead])];
      qHead := qHead + 1;
      doing := doing[t := Some(taken)];
      taken := taken + 1;
      assert !workers[t].Gone?;
      assert doing[t] == Some(old(taken));
      assert forall x :: x in was && x.Some? ==> x in doing by { KeptByUpdate(was, t, doing[t]); }
      CountUpdate(Busy(was), t, true);
      assert Busy(doing) == Busy(was)[t := true];
    }

    /** A worker runs the job it holds and raises its flag. */
    method Run(t: nat)
      requires Valid() && t < |workers| && workers[t].Holding?
      modifies this`workers, this`runs
      ensures Valid() && doing[t].Some? && doing[t].value < |old(runs)|
      ensures runs == old(runs)[doing[t].value := 1] && old(runs)[doing[t].value] == 0
    {
      ghost var i := doing[t].value;
      runs := runs[i := runs[i] + 1];
      workers := workers[t := Ran(workers[t].job)];
      assert !workers[t].Gone?;
      assert doing[t] == Some(i) && Some(i) in doing;
    }

    /** `inflight.fetch_sub`. */
    method Finish(t: nat)
      requires Valid() && t < |workers| && workers[t].Ran?
      modifies this`workers, this`doing, this`inflight
      ensures Valid() && inflight == old(inflight) - 1 && workers == old(workers)[t := Idle]
    {
      hide Count;
      ghost var was := doing;
      inflight := inflight - 1;
      workers := workers[t := Idle];
      assert !workers[t].Gone?;
      doing := doing[t := None];
      KeptByUpdate(was, t, None);
      assert was[t].Some? && runs[was[t].value] == 1;
      CountUpdate(Busy(was), t, false);
      assert Busy(doing) == Busy(was)[t := false];
    }

    method BeginStop()
      requires Valid()
      modifies this`stop
      ensures Valid() && stop
    {
      stop := true;
    }

    /** A worker leaves only when stopping with nothing queued. */
    method Leave(t: nat)
      requires Valid() && t < |workers| && workers[t].Idle? && stop && qHead >= |q|
      modifies this`workers
      ensures Valid() && workers == old(workers)[t := Gone]
    {
      workers := workers[t := Gone];
    }

    lemma NoneLeft()
      requires workers == [Gone]
      ensures !Staffed()
    {}

    /** Nothing in flight: everything announced has been queued, taken and run exactly once. */
    lemma IdleMeansDone()
      requires Valid() && inflight == 0
      ensures announced == 0 && taken == |submitted| && forall i :: 0 <= i < |runs| ==> runs[i] == 1
    {
      CountBound(Busy(doing));
      assert forall t :: 0 <= t < |doing| ==> Busy(doing)[t] == doing[t].Some?;
      assert forall i: nat :: Some(i) !in doing;
    }

    /** A started pool drains before it joins: once all its workers have left, every job has run exactly once. */
    lemma JoinDrains()
      requires Valid() && !Staffed()
      ensures taken == |submitted| && inflight == announced && forall i :: 0 <= i < |runs| ==> runs[i] == 1
    {
      assert q[qHead..] == [];
      CountBound(Busy(doing));
    }

    /** While a worker is idle and a job waits, or a worker is busy, some step is possible: the pool never wedges with work left. */
    lemma NotWedged()
      requires Valid() && announced == 0 && inflight > 0
      ensures exists t :: 0 <= t < |workers| && (workers[t].Holding? || workers[t].Ran? || (workers[t].Idle? && qHead < |q|))
    {
      CountBound(Busy(doing));
      if qHead < |q| {
        var t :| 0 <= t < |workers| && !workers[t].Gone?;
        assert workers[t].Idle? || workers[t].Holding? || workers[t].Ran?;
      } else {
        assert q[qHead..] == [];
      }
    }
  }

  /** The only worker leaves, then a job is submitted: it is queued, counted and never run. */
  method SubmittedTooLate(job: Job) returns (pool: PageCopyPool)
    ensures pool.stop && pool.submitted == [job] && pool.runs == [0] && pool.workers == [Gone] && !pool.Valid()
  {
    hide *;
    pool := new PageCopyPool(1);
    pool.BeginStop();
    pool.Leave(0);
    pool.Announce(1);
    pool.NoneLeft();
    pool.Push([job]);
  }

  lemma KeptByUpdate(s: seq<Option<nat>>, t: nat, v: Option<nat>)
    requires t < |s|
    ensures forall x :: x in s && x != s[t] ==> x in s[t := v]
  {
    forall x | x in s && x != s[t] ensures x in s[t := v] {
      var u :| 0 <= u < |s| && s[u] == x;
      assert s[t := v][u] == x;
    }
  }
}
