/** Progress of the controller when it is driven by a caller that closes the
    doors before every tick: no new requests or calls arrive, and after a
    bounded number of ticks every pending request and call has been served. */
module LiftProgress {
  import opened Lift

  /** One round of the driver: close the doors, then step. */
  function Tick(s: Cabin): Cabin {
    AfterStep(s.(doorsOpen := false))
  }

  /** A run of the driver: each state follows from the one before by one round. */
  ghost predicate IsRun(trace: seq<Cabin>) {
    |trace| > 0 && forall i :: 0 <= i < |trace| - 1 ==> trace[i + 1] == Tick(trace[i])
  }

  function Pending(s: Cabin): nat {
    |s.requests| + |s.calls|
  }

  /** Distance to the floor the controller heads for (0 when nothing is pending). */
  function NearestDist(s: Cabin): nat {
    match NextTarget(s)
    case None => 0
    case Some(t) => Dist(t, s.floor)
  }

  /** Bound on the rounds still needed: pending work dominates, then the distance
      to the nearest target, then whether a direction is still recorded. */
  function Measure(s: Cabin, numFloors: nat): nat {
    Times(Pending(s), 2 * numFloors) + 2 * NearestDist(s) + (if s.direction.Some? then 1 else 0)
  }

  /** `p * k`, written as repeated addition so that the proofs stay linear. */
  function Times(p: nat, k: nat): nat {
    if p == 0 then 0 else Times(p - 1, k) + k
  }

  /** Under the invariant every candidate, and so the nearest, is fewer than `numFloors` floors away. */
  lemma NearestDistBelowFloorCount(s: Cabin, numFloors: int)
    requires Inv(s, numFloors)
    ensures NearestDist(s) < numFloors
  {
    CandidatesInRange(s, numFloors);
  }

  /** A stop that clears nothing keeps both lists as they were, and can happen
      only when a direction was recorded before the stop. */
  lemma StopClearsSomethingOrDirection(s: Cabin)
    requires !s.doorsOpen && NextTarget(s) == Some(s.floor)
    ensures Pending(AfterStep(s)) <= Pending(s)
    ensures Pending(AfterStep(s)) == Pending(s) ==>
      s.direction.Some? && AfterStep(s).requests == s.requests && AfterStep(s).calls == s.calls
  {
    var r := AfterStep(s);
    if Pending(r) == Pending(s) {
      assert s.floor !in s.requests;
      assert forall c :: c in s.calls ==> !Served(c, s.floor, s.direction);
      if s.direction.None? {
        var cands := Candidates(s);
        var k :| 0 <= k < |cands| && cands[k] == s.floor;
        assert k >= |s.requests|;
        var c := s.calls[k - |s.requests|];
        assert c in s.calls && Served(c, s.floor, s.direction);
        assert false;
      }
    }
  }

  /** A round that moves the cabin keeps the pending work and gets closer to a target. */
  lemma MoveLowersMeasure(c: Cabin, numFloors: nat, t: int)
    requires Inv(c, numFloors) && !c.doorsOpen && NextTarget(c) == Some(t) && t != c.floor
    ensures Measure(AfterStep(c), numFloors) < Measure(c, numFloors)
  {
    var r := AfterStep(c);
    StepMovesOneFloorTowardTarget(c, numFloors, t);
    assert Candidates(r) == Candidates(c);
    assert NearestDist(r) <= Dist(t, r.floor);
    assert Pending(r) == Pending(c);
  }

  /** A stop either clears pending work or, clearing nothing, forgets the direction. */
  lemma StopLowersMeasure(c: Cabin, numFloors: nat)
    requires Inv(c, numFloors) && !c.doorsOpen && NextTarget(c) == Some(c.floor)
    ensures Measure(AfterStep(c), numFloors) < Measure(c, numFloors)
  {
    StopClearsSomethingOrDirection(c);
    if Pending(AfterStep(c)) == Pending(c) {
      StopClearingNothing(c, numFloors);
    } else {
      StopClearingWork(c, numFloors);
    }
  }

  /** A stop that clears nothing only forgets the direction. */
  lemma StopClearingNothing(c: Cabin, numFloors: nat)
    requires !c.doorsOpen && NextTarget(c) == Some(c.floor) && c.direction.Some?
    requires AfterStep(c).requests == c.requests && AfterStep(c).calls == c.calls
    ensures Measure(AfterStep(c), numFloors) < Measure(c, numFloors)
  {
    var r := AfterStep(c);
    assert Pending(r) == Pending(c);
    assert r.floor == c.floor && Candidates(r) == Candidates(c);
    assert NearestDist(r) == 0 && r.direction.None?;
  }

  /** A stop that clears work lowers the pending count, which outweighs the rest of the measure. */
  lemma StopClearingWork(c: Cabin, numFloors: nat)
    requires Inv(c, numFloors) && !c.doorsOpen && NextTarget(c) == Some(c.floor)
    requires Pending(AfterStep(c)) < Pending(c)
    ensures Measure(AfterStep(c), numFloors) < Measure(c, numFloors)
  {
    var r := AfterStep(c);
    StepKeepsInvariant(c, numFloors);
    NearestDistBelowFloorCount(r, numFloors);
    var p, k := Pending(c), 2 * numFloors;
    TimesMonotone(Pending(r), p - 1, k);
    assert r.direction.None?;
    assert Times(Pending(r), k) <= Times(p - 1, k);
    assert 2 * NearestDist(r) < k;
    assert Measure(r, numFloors) <= Times(p - 1, k) + 2 * NearestDist(r);
  }

  /** `Times` grows with its first argument. */
  lemma {:induction false} TimesMonotone(a: nat, b: nat, k: nat)
    requires a <= b
    ensures Times(a, k) <= Times(b, k)
    decreases b
  {
    if a < b {
      TimesMonotone(a, b - 1, k);
    }
  }

  /** While work is pending, every round keeps the invariant and lowers the measure. */
  lemma TickDecreasesMeasure(s: Cabin, numFloors: nat)
    requires Inv(s, numFloors) && Pending(s) > 0
    ensures Inv(Tick(s), numFloors)
    ensures Measure(Tick(s), numFloors) < Measure(s, numFloors)
  {
    var c := s.(doorsOpen := false);
    assert Inv(c, numFloors);
    StepKeepsInvariant(c, numFloors);
    assert Measure(c, numFloors) == Measure(s, numFloors) by {
      assert Candidates(c) == Candidates(s);
    }
    var t := NextTarget(c).value;
    if t != c.floor {
      MoveLowersMeasure(c, numFloors, t);
    } else {
      StopLowersMeasure(c, numFloors);
    }
  }

  /** With nothing pending, a round only closes the doors and clears the direction. */
  lemma IdleTick(s: Cabin)
    requires s.requests == [] && s.calls == []
    ensures Tick(s) == s.(doorsOpen := false, direction := None)
  {
  }

  /** Pending work keeps the measure away from zero. */
  lemma PendingWorkHasPositiveMeasure(s: Cabin, numFloors: nat)
    requires 1 <= numFloors && Pending(s) > 0
    ensures Measure(s, numFloors) >= 2
  {
    TimesMonotone(1, Pending(s), 2 * numFloors);
  }

  /** One round of the driver keeps the invariant and either lowers the measure
      or finds nothing to do. */
  lemma TickProgress(s: Cabin, numFloors: nat)
    requires Inv(s, numFloors)
    ensures Inv(Tick(s), numFloors)
    ensures Measure(Tick(s), numFloors) < Measure(s, numFloors) || Measure(Tick(s), numFloors) == 0
    ensures Pending(s) > 0 ==> Measure(s, numFloors) > 0
  {
    if Pending(s) == 0 {
      IdleTick(s);
      assert Measure(Tick(s), numFloors) == 0;
    } else {
      PendingWorkHasPositiveMeasure(s, numFloors);
      TickDecreasesMeasure(s, numFloors);
    }
  }

  /** Enough rounds serve every request and every call that was pending at the
      start: in any run of the driver longer than the measure of its first
      state, the last state has nothing pending. */
  lemma {:induction false} RunServesEverything(trace: seq<Cabin>, numFloors: nat)
    requires IsRun(trace) && |trace| > Measure(trace[0], numFloors) && Inv(trace[0], numFloors)
    ensures Inv(trace[|trace| - 1], numFloors)
    ensures trace[|trace| - 1].requests == [] && trace[|trace| - 1].calls == []
    decreases |trace|
  {
    TickProgress(trace[0], numFloors);
    if |trace| > 1 {
      var rest := trace[1..];
      assert rest[0] == Tick(trace[0]);
      assert IsRun(rest) by {
        forall i | 0 <= i < |rest| - 1
          ensures rest[i + 1] == Tick(rest[i])
        {
          assert rest[i + 1] == trace[i + 2] && rest[i] == trace[i + 1];
        }
      }
      RunServesEverything(rest, numFloors);
      assert rest[|rest| - 1] == trace[|trace| - 1];
    }
  }
}
