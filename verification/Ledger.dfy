/**
 Where each query is: not yet claimed, on one seat, or answered.  Queries are
 handed out from lanes: one shared counter is a single lane, a static split
 over n threads is n lanes with stride n.
 */
module Ledger {
  import opened ContBatch
  import opened PageMath
  import opened Seats

  ghost predicate Lanes(nexts: seq<nat>) {
    |nexts| > 0 && forall l :: 0 <= l < |nexts| ==> nexts[l] % |nexts| == l
  }

  /** The lane a query is handed out from. */
  function LaneOf(qi: nat, lanes: nat): (l: nat)
    requires lanes > 0
    ensures l < lanes
  {
    qi % lanes
  }

  ghost predicate Unclaimed(nexts: seq<nat>, qi: nat) {
    |nexts| > 0 && nexts[LaneOf(qi, |nexts|)] <= qi
  }

  /** The lane's next query is taken. */
  function Take(nexts: seq<nat>, l: nat): seq<nat>
    requires l < |nexts|
  {
    nexts[l := nexts[l] + |nexts|]
  }

  /** Taking from a lane claims that query and no other. */
  lemma TakeOne(nexts: seq<nat>, l: nat, qi: nat)
    requires Lanes(nexts) && l < |nexts|
    ensures Lanes(Take(nexts, l)) && Unclaimed(nexts, nexts[l])
    ensures Unclaimed(Take(nexts, l), qi) <==> Unclaimed(nexts, qi) && qi != nexts[l]
  {
    var n := |nexts|;
    var a := nexts[l];
    PageDownOf(a, n);
    NextOff(a / n, n);
    IndexOf(a / n + 1, n, l);
    assert (a + n) % n == l;
    if LaneOf(qi, n) == l {
      PageDownOf(qi, n);
      StepMul(a / n, qi / n, n);
      StepMul(qi / n, a / n, n);
      NextOff(a / n, n);
    }
  }

  ghost predicate On(seats: seq<Seat>, g: nat, qi: nat) {
    g < |seats| && !seats[g].st.Empty? && seats[g].qi == qi
  }

  ghost predicate Seated(seats: seq<Seat>, qi: nat) {
    exists g: nat :: On(seats, g, qi)
  }

  /** Seats hold claimed, unanswered queries, one each; answered ones were claimed; nothing claimed is lost. */
  ghost predicate Booked(nq: nat, seats: seq<Seat>, results: map<nat, seq<nat>>, nexts: seq<nat>) {
    && Lanes(nexts)
    && (forall g: nat, qi: nat :: On(seats, g, qi) ==> qi < nq && !Unclaimed(nexts, qi) && qi !in results)
    && (forall g: nat, h: nat, qi: nat :: On(seats, g, qi) && On(seats, h, qi) ==> g == h)
    && (forall qi :: qi in results ==> qi < nq && !Unclaimed(nexts, qi))
    && (forall qi: nat :: qi < nq && !Unclaimed(nexts, qi) && qi !in results ==> Seated(seats, qi))
  }

  lemma BookStart(nq: nat, seats: seq<Seat>, nexts: seq<nat>)
    requires Lanes(nexts) && (forall l :: 0 <= l < |nexts| ==> nexts[l] == l)
    requires forall g :: 0 <= g < |seats| ==> seats[g].st.Empty?
    ensures Booked(nq, seats, map[], nexts)
  {
    forall qi: nat ensures Unclaimed(nexts, qi) {
      PageDownOf(qi, |nexts|);
    }
  }

  /** A query is claimed for an empty seat. */
  lemma BookClaim(nq: nat, seats: seq<Seat>, results: map<nat, seq<nat>>, nexts: seq<nat>, l: nat, g: nat, s: Seat)
    requires Booked(nq, seats, results, nexts) && l < |nexts| && g < |seats| && seats[g].st.Empty?
    requires s.qi == nexts[l] < nq && !s.st.Empty?
    ensures Booked(nq, seats[g := s], results, Take(nexts, l))
  {
    hide Unclaimed, Lanes, Take;
    forall qi: nat ensures Lanes(Take(nexts, l)) && Unclaimed(nexts, nexts[l]) && (Unclaimed(Take(nexts, l), qi) <==> Unclaimed(nexts, qi) && qi != nexts[l]) {
      TakeOne(nexts, l, qi);
    }
    TakeOne(nexts, l, 0);
    var after := seats[g := s];
    forall h: nat, qi: nat ensures On(after, h, qi) <==> (h == g && qi == s.qi) || (h != g && On(seats, h, qi)) {}
    forall qi: nat | qi < nq && !Unclaimed(Take(nexts, l), qi) && qi !in results ensures Seated(after, qi) {
      if qi == s.qi { assert On(after, g, qi); } else {
        var h: nat :| On(seats, h, qi);
        assert On(after, h, qi);
      }
    }
  }

  /** A claim past the last query claims nothing. */
  lemma BookPast(nq: nat, seats: seq<Seat>, results: map<nat, seq<nat>>, nexts: seq<nat>, l: nat)
    requires Booked(nq, seats, results, nexts) && l < |nexts| && nexts[l] >= nq
    ensures Booked(nq, seats, results, Take(nexts, l))
  {
    hide Unclaimed, Lanes, Take;
    TakeOne(nexts, l, 0);
    forall qi: nat ensures Unclaimed(Take(nexts, l), qi) <==> Unclaimed(nexts, qi) && qi != nexts[l] {
      TakeOne(nexts, l, qi);
    }
  }

  /** A seat moves on with the query it holds. */
  lemma BookMove(nq: nat, seats: seq<Seat>, results: map<nat, seq<nat>>, nexts: seq<nat>, g: nat, s: Seat)
    requires Booked(nq, seats, results, nexts) && g < |seats|
    requires !seats[g].st.Empty? && !s.st.Empty? && s.qi == seats[g].qi
    ensures Booked(nq, seats[g := s], results, nexts)
  {
    hide Unclaimed, Lanes;
    var after := seats[g := s];
    forall h: nat, qi: nat ensures On(after, h, qi) <==> On(seats, h, qi) {}
    forall qi: nat | Seated(seats, qi) ensures Seated(after, qi) {
      var h: nat :| On(seats, h, qi);
      assert On(after, h, qi);
    }
  }

  /** A seat's query is answered and the seat emptied. */
  lemma BookFinish(nq: nat, seats: seq<Seat>, results: map<nat, seq<nat>>, nexts: seq<nat>, g: nat, s: Seat, out: seq<nat>)
    requires Booked(nq, seats, results, nexts) && g < |seats| && !seats[g].st.Empty? && s.st.Empty?
    ensures seats[g].qi !in results && Booked(nq, seats[g := s], results[seats[g].qi := out], nexts)
  {
    hide Unclaimed, Lanes;
    var after := seats[g := s];
    assert On(seats, g, seats[g].qi);
    forall h: nat, qi: nat ensures On(after, h, qi) <==> h != g && On(seats, h, qi) {}
    forall qi: nat | Seated(seats, qi) && qi != seats[g].qi ensures Seated(after, qi) {
      var h: nat :| On(seats, h, qi);
      assert On(after, h, qi);
    }
  }

  /** In every state each query is in exactly one place: unclaimed, on one seat, or answered. */
  lemma ExactlyOnce(nq: nat, seats: seq<Seat>, results: map<nat, seq<nat>>, nexts: seq<nat>, qi: nat)
    requires Booked(nq, seats, results, nexts) && qi < nq
    ensures Unclaimed(nexts, qi) || qi in results || Seated(seats, qi)
    ensures !(Unclaimed(nexts, qi) && qi in results) && !(Unclaimed(nexts, qi) && Seated(seats, qi))
    ensures !(qi in results && Seated(seats, qi))
    ensures forall g: nat, h: nat :: On(seats, g, qi) && On(seats, h, qi) ==> g == h
  {}

  /** With every seat empty and every lane past the end, exactly the queries 0..nq have answers. */
  lemma AllAnswered(nq: nat, seats: seq<Seat>, results: map<nat, seq<nat>>, nexts: seq<nat>)
    requires Booked(nq, seats, results, nexts)
    requires forall g :: 0 <= g < |seats| ==> seats[g].st.Empty?
    requires forall l :: 0 <= l < |nexts| ==> nexts[l] >= nq
    ensures forall qi: nat :: qi in results <==> qi < nq
  {}
}
