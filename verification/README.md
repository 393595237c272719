# Single-cabin elevator controller

This project models the elevator simulator `Elevator` of `2025-10-15/lift.ts`.
The controller owns one cabin in a building of `numFloors` floors. Its state is:

- the current floor;
- whether the doors are open;
- the travel direction (`'up'`, `'down'` or `null`);
- the floors requested from inside the cabin (a `Set`, iterated in insertion order);
- the calls made from the landings, each a floor and a wanted direction (an array, duplicates kept).

Requests and calls are accepted only for floors of the building, and calls only with a direction.
Each `step()` does one of four things:

- nothing, while the doors are open;
- clears the direction, when nothing is pending;
- moves one floor toward the nearest pending floor;
- when the cabin already stands at that floor, opens the doors and clears what the stop fulfils.

The nearest floor is chosen among the requests first, then the calls.
On a tie, the earliest candidate wins.
A stop clears the request for the floor.
It also clears every call at the floor whose direction is the one the cabin travelled, or every call there when no direction was recorded.

`lift.dfy` (module `Lift`) has two parts:

- Pure functions over the datatype `Cabin`. They state what each operation does: `WithRequest`, `WithCall`, `NextTarget` and `FirstNearestIndex`, `RemoveFloor` and `Unserved` (fulfilment), and `AfterStep`.
- The class `Elevator`. Its fields are the source's fields and its methods update them in place. Each method is proved to leave the state (`State()`) that the matching function gives. `GetNextTargetFloor` keeps the source's scanning loop and is proved against `NextTarget`. The delays of `sleep` become a ghost counter `elapsedMs`: 3000 ms per move, 1000 ms per door action.

`progress.dfy` (module `LiftProgress`) proves that the controller makes progress. The driver closes the doors before every step, and no new requests or calls arrive. Under these conditions, every pending request and call is served within a bounded number of rounds.

Requests are kept in insertion order, because that order decides ties in target selection (2025-10-15/lift.ts:103-106, 114).
Delays are 3000 ms per move and 1000 ms per door action (2025-10-15/lift.ts:60, 66, 84, 88).

The class invariant `Valid()` has two parts. `Inv` keeps the cabin inside the building and the stored requests and calls valid and duplicate-free. `DirInv` says a direction is recorded only while something is pending.

## Model

| member | source | states |
|---|---|---|
| Lift.FirstNearestIndex | 2025-10-15/lift.ts:109-118 | the chosen candidate is at a distance no greater than any other candidate's, and strictly nearer than every earlier one (the first minimum wins) |
| Lift.FirstNearestIndexExtend | 2025-10-15/lift.ts:112-117 | scanning one more candidate replaces the choice only when the new candidate is strictly nearer |
| Lift.NearestIndexUnique | 2025-10-15/lift.ts:109-118 | being nearest and earliest determines the chosen index uniquely |
| Lift.NextTarget | 2025-10-15/lift.ts:100-120 | no target exactly when there are no requests and no calls; otherwise the target is one of the candidates and no candidate is nearer to the cabin |
| Lift.NextTargetIsEarliestNearest | 2025-10-15/lift.ts:103-117 | among candidates at the minimal distance, the earliest in requests-then-calls order is the target |
| Lift.CandidatesInRange | 2025-10-15/lift.ts:103-106 | under the controller's invariant every candidate is a floor of the building |
| Lift.WithRequest | 2025-10-15/lift.ts:41-45 | a request is added only for an in-range floor not yet requested; an out-of-range or repeated floor leaves the state unchanged; existing requests keep their order; no duplicate arises |
| Lift.WithCall | 2025-10-15/lift.ts:48-56 | a call is appended at the end only for an in-range floor with a direction, one more copy even if it is a duplicate; otherwise nothing changes |
| Lift.Unserved | 2025-10-15/lift.ts:124-130 | the calls kept are exactly those not served at the floor (direction matches, or no direction recorded); a stop that serves a call shortens the list; one that serves none keeps it |
| Lift.UnservedOfConcat | 2025-10-15/lift.ts:124-130 | the filter distributes over concatenation, so the kept calls stay in their original order |
| Lift.UnservedKeepsMultiplicity | 2025-10-15/lift.ts:124-130 | every unserved call keeps all its duplicates and every served one is removed entirely |
| Lift.RemoveFloor | 2025-10-15/lift.ts:123 | the floor is removed and every other request kept; duplicate-freedom is kept; an absent floor changes nothing |
| Lift.RemoveFloorAt | 2025-10-15/lift.ts:123 | on duplicate-free requests, deletion cuts out exactly the floor's one position, keeping the order of the rest |
| Lift.StepKeepsInvariant | 2025-10-15/lift.ts:70-95 | a step keeps the cabin in the building and the stored requests and calls valid and duplicate-free |
| Lift.StepKeepsDirInv | 2025-10-15/lift.ts:70-95 | a step keeps "no direction while nothing is pending": a move sets a direction but leaves the pending lists untouched, and every stop or idle step clears the direction |
| Lift.RequestAndCallKeepDirInv | 2025-10-15/lift.ts:41-56 | adding a request or a call keeps "no direction while nothing is pending" |
| Lift.StepWithDoorsOpenChangesNothing | 2025-10-15/lift.ts:70-73 | with the doors open a step changes nothing and takes no time |
| Lift.StepWithoutTargetStops | 2025-10-15/lift.ts:75-80 | with nothing pending a step only clears the direction |
| Lift.StepMovesOneFloorTowardTarget | 2025-10-15/lift.ts:82-89 | a move changes the floor by exactly one, one floor closer to the target (never past it), stays in the building, sets the direction toward the target, changes nothing else and takes 3000 ms |
| Lift.StepAtTargetServesFloor | 2025-10-15/lift.ts:90-94 | at the target the doors open, the floor's request is cleared, exactly the served calls are removed (judged by the direction before the stop) and the direction ends cleared; 1000 ms |
| Lift.ArrivalKeepsOppositeCalls | 2025-10-15/lift.ts:124-130 | after travelling in one direction, a call at the floor for the opposite direction survives the stop and one for the travelled direction does not |
| Lift.RequestClearedOnlyOnArrival | 2025-10-15/lift.ts:90-94 | a request disappears only in a step that stops at its floor and opens the doors |
| Lift.ScenarioCallAtThirdFloor | 2025-10-15/lift.ts:70-95 | from floor 0 with an up call at floor 3: three steps reach floor 3 heading up, the fourth opens the doors, clears the call and clears the direction |
| Lift.ScenarioRequestAtCurrentFloor | 2025-10-15/lift.ts:90-94 | a request for the floor the cabin stands at is served by one step |
| Lift.Elevator.constructor | 2025-10-15/lift.ts:25-32 | starts at the initial floor with doors closed, no direction, no requests and no calls |
| Lift.Elevator.RequestFloor | 2025-10-15/lift.ts:41-45 | the new state is `WithRequest` of the old one; the invariant is kept |
| Lift.Elevator.CallElevator | 2025-10-15/lift.ts:48-56 | the new state is `WithCall` of the old one; the invariant is kept |
| Lift.Elevator.OpenDoors | 2025-10-15/lift.ts:59-62 | only the doors-open flag changes, to true; 1000 ms pass |
| Lift.Elevator.CloseDoors | 2025-10-15/lift.ts:65-68 | only the doors-open flag changes, to false; 1000 ms pass |
| Lift.Elevator.Step | 2025-10-15/lift.ts:70-95 | the new state is `AfterStep` of the old one, the invariant is kept and the step's delay is added to the elapsed time |
| Lift.Elevator.GetNextTargetFloor | 2025-10-15/lift.ts:100-120 | the scanning loop, started with the floor count as distance bound, returns exactly `NextTarget` of the current state |
| Lift.Elevator.FulfillRequestsAndCalls | 2025-10-15/lift.ts:122-131 | the current floor leaves the requests and the served calls leave the calls, nothing else changes; the floor-range invariant `Inv` is kept (the caller `Step` restores the direction part of `Valid()`) |
| Lift.Elevator.GetCurrentFloor | 2025-10-15/lift.ts:133-135 | returns the current floor, which lies in the building |
| Lift.Elevator.AreDoorsOpen | 2025-10-15/lift.ts:137-139 | returns the doors-open flag |
| Lift.Elevator.GetDirection | 2025-10-15/lift.ts:141-143 | returns the current direction |
| LiftProgress.StopClearsSomethingOrDirection | 2025-10-15/lift.ts:90-94 | a stop never adds work; a stop that clears nothing leaves both lists unchanged, and can happen only when a direction was recorded |
| LiftProgress.TickDecreasesMeasure | 2025-10-15/lift.ts:70-95 | while work is pending, closing the doors and stepping keeps the invariant and strictly lowers the progress measure |
| LiftProgress.RunServesEverything | 2025-10-15/lift.ts:70-131 | in any run of the close-then-step driver longer than the measure of its start, the last state has no requests and no calls left |

## Left out

- `2025-11_airline_datenmodell/seed.ts` is not part of this model: it seeds a database through an external client with random data and the clock, and shares nothing with the controller.
- The `sleep` helper, its timers and promises (`2025-10-15/lift.ts:36-38`): each delay is modelled only as an addition to the ghost counter `elapsedMs`; `async` methods are ordinary sequential methods.
- Concurrent or interleaved calls of `step`, `openDoors` and `closeDoors`: the model assumes one caller at a time.
- Floors are unbounded integers. The source takes JavaScript numbers, so a fractional floor such as 2.5 passes its range check. With such a floor the cabin would move back and forth around it and never stop. The model does not capture this.
- Lift.Elevator.constructor: requires `1 <= numFloors` and `0 <= initialFloor < numFloors`, which the source does not check. With an initial floor outside the building, the source's target scan can start with a distance bound (`numFloors`) that no candidate beats. It then reports no target although requests are pending. The model does not capture this.
- The public operations of `Lift.Elevator` require the class invariant `Valid()`, which the constructor establishes and every public operation keeps. `FulfillRequestsAndCalls` is private in the source and called only from `step`; it keeps only `Inv`, and `Step` restores `DirInv`. The getters `AreDoorsOpen` and `GetDirection` need no invariant; `GetCurrentFloor` requires `Valid()` only to promise an in-range floor.
- LiftProgress.RunServesEverything: progress is proved only for a driver that closes the doors before every step and adds no requests or calls during the run. With new requests arriving, or with doors left open, nothing is promised, and the source promises nothing either.
