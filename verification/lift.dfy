/** A single-cabin elevator controller.
    The cabin state is a floor, a doors-open flag, a travel direction, the floors
    requested from inside the cabin (duplicate-free, in insertion order) and the
    calls made from the landings (in arrival order, duplicates allowed).
    The pure functions over `Cabin` say what each operation does; the class
    `Elevator` performs the operations in place and is proved against them. */
module Lift {

  datatype Option<T> = None | Some(value: T)

  datatype Heading = Up | Down

  /** A travel direction; `None` is the value of a cabin that is standing. */
  type Direction = Option<Heading>

  /** A call from a landing: the floor and the direction the caller wants to travel. */
  datatype FloorCall = FloorCall(floor: int, direction: Direction)

  /** Simulated duration of moving one floor, in milliseconds. */
  const MoveMs: nat := 3000
  /** Simulated duration of opening or closing the doors, in milliseconds. */
  const DoorMs: nat := 1000

  /** The abstract state of the controller (everything but the floor count). */
  datatype Cabin = Cabin(
    floor: int,
    doorsOpen: bool,
    direction: Direction,
    requests: seq<int>,
    calls: seq<FloorCall>)

  predicate InRange(f: int, numFloors: int) {
    0 <= f < numFloors
  }

  predicate NoDuplicates(s: seq<int>) {
    forall i, j :: 0 <= i < j < |s| ==> s[i] != s[j]
  }

  /** What the controller keeps true: the cabin is inside the building, and only
      accepted requests and calls are stored. */
  predicate Inv(s: Cabin, numFloors: int) {
    1 <= numFloors &&
    InRange(s.floor, numFloors) &&
    NoDuplicates(s.requests) &&
    (forall f :: f in s.requests ==> InRange(f, numFloors)) &&
    (forall c :: c in s.calls ==> InRange(c.floor, numFloors) && c.direction.Some?)
  }

  /** A direction is recorded only while something is pending. */
  predicate DirInv(s: Cabin) {
    s.requests == [] && s.calls == [] ==> s.direction.None?
  }

  function Opposite(h: Heading): Heading {
    if h == Up then Down else Up
  }

  function Dist(a: int, b: int): nat {
    if a < b then b - a else a - b
  }

  function CallFloors(calls: seq<FloorCall>): seq<int> {
    seq(|calls|, i requires 0 <= i < |calls| => calls[i].floor)
  }

  /** The candidate targets in the order they are examined: requests first, then calls. */
  function Candidates(s: Cabin): seq<int> {
    s.requests + CallFloors(s.calls)
  }

  lemma CandidatesInRange(s: Cabin, numFloors: int)
    requires Inv(s, numFloors)
    ensures forall x :: x in Candidates(s) ==> InRange(x, numFloors)
  {
    forall x | x in Candidates(s)
      ensures InRange(x, numFloors)
    {
      if x !in s.requests {
        var i :| 0 <= i < |s.calls| && CallFloors(s.calls)[i] == x;
        assert s.calls[i] in s.calls;
      }
    }
  }

  /** The index of the first candidate at the smallest distance from `from`. */
  function FirstNearestIndex(cands: seq<int>, from: int): (k: nat)
    requires cands != []
    ensures k < |cands|
    ensures forall j :: 0 <= j < |cands| ==> Dist(cands[k], from) <= Dist(cands[j], from)
    ensures forall j :: 0 <= j < k ==> Dist(cands[k], from) < Dist(cands[j], from)
    decreases |cands|
  {
    if |cands| == 1 then 0
    else
      var k := FirstNearestIndex(cands[..|cands| - 1], from);
      if Dist(cands[|cands| - 1], from) < Dist(cands[k], from) then |cands| - 1 else k
  }

  /** Extending the scanned prefix by one candidate. */
  lemma FirstNearestIndexExtend(cands: seq<int>, i: nat, from: int)
    requires i < |cands|
    ensures i == 0 ==> FirstNearestIndex(cands[..i + 1], from) == 0
    ensures 0 < i ==>
      var k := FirstNearestIndex(cands[..i], from);
      FirstNearestIndex(cands[..i + 1], from) == if Dist(cands[i], from) < Dist(cands[k], from) then i else k
  {
    assert cands[..i + 1][..i] == cands[..i];
  }

  /** Nearness and earliness determine the chosen index completely. */
  lemma NearestIndexUnique(cands: seq<int>, from: int, k: nat)
    requires k < |cands|
    requires forall j :: 0 <= j < |cands| ==> Dist(cands[k], from) <= Dist(cands[j], from)
    requires forall j :: 0 <= j < k ==> Dist(cands[k], from) < Dist(cands[j], from)
    ensures k == FirstNearestIndex(cands, from)
  {
  }

  /** The floor the controller heads for next, or `None` when nothing is pending. */
  function NextTarget(s: Cabin): (t: Option<int>)
    ensures t.None? <==> s.requests == [] && s.calls == []
    ensures t.Some? ==> t.value in Candidates(s)
    ensures t.Some? ==> forall c :: c in Candidates(s) ==> Dist(t.value, s.floor) <= Dist(c, s.floor)
  {
    var cands := Candidates(s);
    if cands == [] then None
    else
      var k := FirstNearestIndex(cands, s.floor);
      assert cands[k] in cands;
      Some(cands[k])
  }

  /** Ties go to the earliest candidate: requests before calls, each in its own order. */
  lemma NextTargetIsEarliestNearest(s: Cabin, k: nat)
    requires k < |Candidates(s)|
    requires forall j :: 0 <= j < |Candidates(s)| ==>
      Dist(Candidates(s)[k], s.floor) <= Dist(Candidates(s)[j], s.floor)
    requires forall j :: 0 <= j < k ==> Dist(Candidates(s)[k], s.floor) < Dist(Candidates(s)[j], s.floor)
    ensures NextTarget(s) == Some(Candidates(s)[k])
  {
    NearestIndexUnique(Candidates(s), s.floor, k);
  }

  /** An internal request: stored once, and only for a floor of the building. */
  function WithRequest(s: Cabin, f: int, numFloors: int): (r: Cabin)
    ensures r.(requests := s.requests) == s
    ensures forall x :: x in r.requests <==> x in s.requests || (x == f && InRange(f, numFloors))
    ensures !InRange(f, numFloors) || f in s.requests ==> r == s
    ensures |s.requests| <= |r.requests| <= |s.requests| + 1
    ensures r.requests[..|s.requests|] == s.requests
    ensures NoDuplicates(s.requests) ==> NoDuplicates(r.requests)
  {
    if InRange(f, numFloors) && f !in s.requests then s.(requests := s.requests + [f]) else s
  }

  /** A landing call: appended when the floor exists and a direction is given. */
  function WithCall(s: Cabin, f: int, d: Direction, numFloors: int): (r: Cabin)
    ensures r.(calls := s.calls) == s
    ensures !InRange(f, numFloors) || d.None? ==> r == s
    ensures InRange(f, numFloors) && d.Some? ==>
      |r.calls| == |s.calls| + 1 && r.calls[..|s.calls|] == s.calls && r.calls[|s.calls|] == FloorCall(f, d)
    ensures InRange(f, numFloors) && d.Some? ==>
      multiset(r.calls)[FloorCall(f, d)] == multiset(s.calls)[FloorCall(f, d)] + 1
  {
    if InRange(f, numFloors) && d.Some? then s.(calls := s.calls + [FloorCall(f, d)]) else s
  }

  /** Whether stopping at `floor` after travelling in `dir` serves call `c`. */
  predicate Served(c: FloorCall, floor: int, dir: Direction) {
    c.floor == floor && (dir.None? || c.direction == dir)
  }

  /** The calls left after stopping at `floor`, in their original order. */
  function Unserved(calls: seq<FloorCall>, floor: int, dir: Direction): (r: seq<FloorCall>)
    ensures forall c :: c in r <==> c in calls && !Served(c, floor, dir)
    ensures |r| <= |calls|
    ensures (forall c :: c in calls ==> !Served(c, floor, dir)) ==> r == calls
    ensures (exists c :: c in calls && Served(c, floor, dir)) ==> |r| < |calls|
  {
    if calls == [] then []
    else
      (if Served(calls[0], floor, dir) then [] else [calls[0]]) + Unserved(calls[1..], floor, dir)
  }

  /** Filtering distributes over concatenation: the kept calls keep their order. */
  lemma {:induction false} UnservedOfConcat(a: seq<FloorCall>, b: seq<FloorCall>, floor: int, dir: Direction)
    ensures Unserved(a + b, floor, dir) == Unserved(a, floor, dir) + Unserved(b, floor, dir)
  {
    if a == [] {
      assert a + b == b;
    } else {
      assert (a + b)[0] == a[0];
      assert (a + b)[1..] == a[1..] + b;
      UnservedOfConcat(a[1..], b, floor, dir);
    }
  }

  /** Every call that is not served keeps all of its duplicates. */
  lemma {:induction false} UnservedKeepsMultiplicity(calls: seq<FloorCall>, floor: int, dir: Direction, c: FloorCall)
    ensures multiset(Unserved(calls, floor, dir))[c] ==
      if Served(c, floor, dir) then 0 else multiset(calls)[c]
  {
    if calls != [] {
      var rest := calls[1..];
      var head := if Served(calls[0], floor, dir) then [] else [calls[0]];
      UnservedKeepsMultiplicity(rest, floor, dir, c);
      assert calls == [calls[0]] + rest;
      assert multiset(calls) == multiset([calls[0]]) + multiset(rest);
      assert multiset(Unserved(calls, floor, dir)) == multiset(head) + multiset(Unserved(rest, floor, dir));
    }
  }

  /** Deleting a floor from the requests; the other floors keep their order. */
  function RemoveFloor(requests: seq<int>, f: int): (r: seq<int>)
    ensures forall x :: x in r <==> x in requests && x != f
    ensures |r| <= |requests|
    ensures f !in requests ==> r == requests
    ensures f in requests ==> |r| < |requests|
    ensures NoDuplicates(requests) ==> NoDuplicates(r)
  {
    if requests == [] then []
    else if requests[0] == f then RemoveFloor(requests[1..], f)
    else
      var rest := RemoveFloor(requests[1..], f);
      assert NoDuplicates(requests) ==> requests[0] !in requests[1..];
      [requests[0]] + rest
  }

  /** On a duplicate-free request list, deleting `f` cuts out exactly its one position. */
  lemma {:induction false} RemoveFloorAt(requests: seq<int>, i: nat)
    requires NoDuplicates(requests) && i < |requests|
    ensures RemoveFloor(requests, requests[i]) == requests[..i] + requests[i + 1..]
  {
    var f := requests[i];
    if i == 0 {
      assert f !in requests[1..];
    } else {
      assert requests[0] != f;
      assert NoDuplicates(requests[1..]);
      RemoveFloorAt(requests[1..], i - 1);
      assert requests[1..][..i - 1] == requests[1..i];
      assert requests[1..][i..] == requests[i + 1..];
      assert requests[..i] == [requests[0]] + requests[1..i];
    }
  }

  /** Clearing what is fulfilled at the current floor, judged by the current direction. */
  function AfterFulfill(s: Cabin): Cabin {
    s.(requests := RemoveFloor(s.requests, s.floor), calls := Unserved(s.calls, s.floor, s.direction))
  }

  /** One tick of the controller. */
  function AfterStep(s: Cabin): Cabin {
    if s.doorsOpen then s
    else
      match NextTarget(s)
      case None => s.(direction := None)
      case Some(t) =>
        if t > s.floor then s.(direction := Some(Up), floor := s.floor + 1)
        else if t < s.floor then s.(direction := Some(Down), floor := s.floor - 1)
        else AfterFulfill(s.(doorsOpen := true)).(direction := None)
  }

  /** The simulated time one tick takes. */
  function StepDelayMs(s: Cabin): nat {
    if s.doorsOpen then 0
    else
      match NextTarget(s)
      case None => 0
      case Some(t) => if t != s.floor then MoveMs else DoorMs
  }

  lemma StepKeepsInvariant(s: Cabin, numFloors: int)
    requires Inv(s, numFloors)
    ensures Inv(AfterStep(s), numFloors)
  {
    if !s.doorsOpen && NextTarget(s).Some? {
      CandidatesInRange(s, numFloors);
    }
  }

  /** A step records a direction only when it moves, which leaves the pending work in place,
      and clears it whenever it stops or finds nothing to do. */
  lemma StepKeepsDirInv(s: Cabin)
    requires DirInv(s)
    ensures DirInv(AfterStep(s))
  {
    if !s.doorsOpen && NextTarget(s).Some? && NextTarget(s).value != s.floor {
      assert AfterStep(s).requests == s.requests && AfterStep(s).calls == s.calls;
    }
  }

  /** Adding requests or calls never leaves a direction recorded with nothing pending. */
  lemma RequestAndCallKeepDirInv(s: Cabin, f: int, d: Direction, numFloors: int)
    requires DirInv(s)
    ensures DirInv(WithRequest(s, f, numFloors))
    ensures DirInv(WithCall(s, f, d, numFloors))
  {
  }

  lemma StepWithDoorsOpenChangesNothing(s: Cabin)
    requires s.doorsOpen
    ensures AfterStep(s) == s && StepDelayMs(s) == 0
  {
  }

  lemma StepWithoutTargetStops(s: Cabin)
    requires !s.doorsOpen && s.requests == [] && s.calls == []
    ensures AfterStep(s) == s.(direction := None) && StepDelayMs(s) == 0
  {
  }

  /** A move covers exactly one floor, toward the target, and never leaves the building. */
  lemma StepMovesOneFloorTowardTarget(s: Cabin, numFloors: int, t: int)
    requires Inv(s, numFloors) && !s.doorsOpen && NextTarget(s) == Some(t) && t != s.floor
    ensures Dist(AfterStep(s).floor, s.floor) == 1
    ensures Dist(t, AfterStep(s).floor) == Dist(t, s.floor) - 1
    ensures AfterStep(s).direction == Some(if t > s.floor then Up else Down)
    ensures InRange(AfterStep(s).floor, numFloors)
    ensures AfterStep(s).(floor := s.floor, direction := s.direction) == s
    ensures StepDelayMs(s) == MoveMs
  {
    CandidatesInRange(s, numFloors);
  }

  /** Arriving at the target opens the doors and clears what the stop fulfils. */
  lemma StepAtTargetServesFloor(s: Cabin)
    requires !s.doorsOpen && NextTarget(s) == Some(s.floor)
    ensures AfterStep(s).floor == s.floor && AfterStep(s).doorsOpen && AfterStep(s).direction.None?
    ensures forall x :: x in AfterStep(s).requests <==> x in s.requests && x != s.floor
    ensures forall c :: c in AfterStep(s).calls <==> c in s.calls && !Served(c, s.floor, s.direction)
    ensures AfterStep(s).calls == Unserved(s.calls, s.floor, s.direction)
    ensures StepDelayMs(s) == DoorMs
  {
  }

  /** A call for the opposite direction survives the stop; one for the travelled direction does not. */
  lemma ArrivalKeepsOppositeCalls(s: Cabin, h: Heading)
    requires !s.doorsOpen && NextTarget(s) == Some(s.floor) && s.direction == Some(h)
    ensures FloorCall(s.floor, Some(Opposite(h))) in s.calls ==>
      FloorCall(s.floor, Some(Opposite(h))) in AfterStep(s).calls
    ensures FloorCall(s.floor, Some(h)) !in AfterStep(s).calls
  {
    StepAtTargetServesFloor(s);
  }

  /** A request disappears only when the cabin stops at its floor. */
  lemma RequestClearedOnlyOnArrival(s: Cabin, f: int)
    requires f in s.requests && f !in AfterStep(s).requests
    ensures f == s.floor && AfterStep(s).floor == f && AfterStep(s).doorsOpen
  {
  }

  /** Ten floors, cabin at 0, a call at floor 3 going up: three moves, then a stop that clears the call. */
  lemma ScenarioCallAtThirdFloor()
    ensures var s0 := Cabin(0, false, None, [], [FloorCall(3, Some(Up))]);
      var s3 := AfterStep(AfterStep(AfterStep(s0)));
      s3 == Cabin(3, false, Some(Up), [], [FloorCall(3, Some(Up))]) &&
      AfterStep(s3) == Cabin(3, true, None, [], [])
  {
    var s0 := Cabin(0, false, None, [], [FloorCall(3, Some(Up))]);
    assert Candidates(s0) == [3];
    var s1 := AfterStep(s0);
    assert Candidates(s1) == [3];
    var s2 := AfterStep(s1);
    assert Candidates(s2) == [3];
    var s3 := AfterStep(s2);
    assert Candidates(s3) == [3];
  }

  /** A request for the floor the cabin stands at is served by a single tick. */
  lemma ScenarioRequestAtCurrentFloor()
    ensures AfterStep(Cabin(5, false, None, [5], [])) == Cabin(5, true, None, [], [])
  {
    assert Candidates(Cabin(5, false, None, [5], [])) == [5];
  }

  class Elevator {
    var currentFloor: int
    var doorsOpen: bool
    var floorRequests: seq<int>
    var floorCalls: seq<FloorCall>
    const numFloors: int
    var direction: Direction
    /** Simulated time spent so far, in milliseconds. */
    ghost var elapsedMs: nat

    ghost function State(): Cabin
      reads this
    {
      Cabin(currentFloor, doorsOpen, direction, floorRequests, floorCalls)
    }

    ghost predicate Valid()
      reads this
    {
      Inv(State(), numFloors) && DirInv(State())
    }

    constructor (numFloors: int, initialFloor: int := 0)
      requires 1 <= numFloors && InRange(initialFloor, numFloors)
      ensures Valid() && this.numFloors == numFloors
      ensures State() == Cabin(initialFloor, false, None, [], [])
      ensures elapsedMs == 0
    {
      this.numFloors := numFloors;
      currentFloor := initialFloor;
      doorsOpen := false;
      floorRequests := [];
      floorCalls := [];
      direction := None;
      elapsedMs := 0;
    }

    method RequestFloor(floor: int)
      requires Valid()
      modifies this
      ensures Valid()
      ensures State() == WithRequest(old(State()), floor, numFloors)
      ensures elapsedMs == old(elapsedMs)
    {
      if floor >= 0 && floor < numFloors {
        if floor !in floorRequests {
          floorRequests := floorRequests + [floor];
        }
      }
    }

    method CallElevator(floor: int, direction: Direction)
      requires Valid()
      modifies this
      ensures Valid()
      ensures State() == WithCall(old(State()), floor, direction, numFloors)
      ensures elapsedMs == old(elapsedMs)
    {
      if floor >= 0 && floor < numFloors && (direction == Some(Up) || direction == Some(Down)) {
        floorCalls := floorCalls + [FloorCall(floor, direction)];
      } else {
        assert direction.Some? ==> direction.value == Up || direction.value == Down;
      }
    }

    method OpenDoors()
      requires Valid()
      modifies this
      ensures Valid()
      ensures State() == old(State()).(doorsOpen := true)
      ensures elapsedMs == old(elapsedMs) + DoorMs
    {
      elapsedMs := elapsedMs + DoorMs;
      doorsOpen := true;
    }

    method CloseDoors()
      requires Valid()
      modifies this
      ensures Valid()
      ensures State() == old(State()).(doorsOpen := false)
      ensures elapsedMs == old(elapsedMs) + DoorMs
    {
      elapsedMs := elapsedMs + DoorMs;
      doorsOpen := false;
    }

    method Step()
      requires Valid()
      modifies this
      ensures Valid()
      ensures State() == AfterStep(old(State()))
      ensures elapsedMs == old(elapsedMs) + StepDelayMs(old(State()))
    {
      StepKeepsInvariant(State(), numFloors);
      StepKeepsDirInv(State());
      if doorsOpen {
        return;
      }
      var nextFloor := GetNextTargetFloor();
      if nextFloor == None {
        direction := None;
        return;
      }
      if nextFloor.value > currentFloor {
        direction := Some(Up);
        elapsedMs := elapsedMs + MoveMs;
        currentFloor := currentFloor + 1;
      } else if nextFloor.value < currentFloor {
        direction := Some(Down);
        elapsedMs := elapsedMs + MoveMs;
        currentFloor := currentFloor - 1;
      } else {
        OpenDoors();
        FulfillRequestsAndCalls();
        direction := None;
      }
    }

    /** Scans the candidates once, keeping the first one at the smallest distance. */
    method GetNextTargetFloor() returns (target: Option<int>)
      requires Valid()
      ensures target == NextTarget(State())
    {
      var allTargets := floorRequests + CallFloors(floorCalls);
      if |allTargets| == 0 {
        return None;
      }
      CandidatesInRange(State(), numFloors);
      var minDist := numFloors;
      target := None;
      ghost var best: nat := 0;
      for i := 0 to |allTargets|
        invariant i == 0 ==> target == None && minDist == numFloors
        invariant 0 < i ==> best == FirstNearestIndex(allTargets[..i], currentFloor)
        invariant 0 < i ==> best < i && target == Some(allTargets[best])
        invariant 0 < i ==> minDist == Dist(allTargets[best], currentFloor)
      {
        assert allTargets[i] in allTargets;
        FirstNearestIndexExtend(allTargets, i, currentFloor);
        var dist := Dist(allTargets[i], currentFloor);
        if dist < minDist {
          minDist := dist;
          target := Some(allTargets[i]);
          best := i;
        }
      }
      assert allTargets[..|allTargets|] == allTargets;
    }

    /** Called by `Step` on arrival, which clears the direction afterwards; until then the
        lists may be empty while a direction is still recorded, so only `Inv` is promised. */
    method FulfillRequestsAndCalls()
      requires Valid()
      modifies this
      ensures Inv(State(), numFloors)
      ensures State() == AfterFulfill(old(State()))
      ensures elapsedMs == old(elapsedMs)
    {
      floorRequests := RemoveFloor(floorRequests, currentFloor);
      floorCalls := Unserved(floorCalls, currentFloor, direction);
    }

    /** The only getter that needs the invariant: it promises an in-range floor.
        The other two getters are plain reads and promise only the field's value. */
    method GetCurrentFloor() returns (floor: int)
      requires Valid()
      ensures floor == currentFloor && InRange(floor, numFloors)
    {
      floor := currentFloor;
    }

    method AreDoorsOpen() returns (open: bool)
      ensures open == doorsOpen
    {
      open := doorsOpen;
    }

    method GetDirection() returns (d: Direction)
      ensures d == direction
    {
      d := direction;
    }
  }
}
