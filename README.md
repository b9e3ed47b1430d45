# AGV telemetry simulator: the vehicle state machine

This project models the core of `sim.py`, a simulator of automated guided vehicles
(AGVs) driving the lanes of a container yard. The core is the class `AGVState`. It covers:

- the fixed yard topology: three yard blocks with two lanes each;
- the constructor, which picks a random block, lane, position, speed, charge, job and
  load status;
- `_new_job_id`, which renders `JOB-` followed by a six-digit number;
- `tick(dt)`, which works in these steps:
  - it drifts the speed and clamps it to [4, 18] km/h;
  - it moves the vehicle along its 1000 m lane;
  - at the lane end it resets the position, takes a new job, may flip the load status
    and may move to another block and lane;
  - it drains the battery and, below 30 %, may recharge abruptly;
- `to_doc`, the snapshot record with position and speed rounded to 2 places and charge
  to 1 place;
- the per-tick batch loop of `main`, which ticks and then renders every vehicle in
  fleet order.

Every `random.*` call is a field of a draw record. `InitDraws` holds the constructor's
draws and `TickDraws` holds a tick's. Each record's `InRange()` predicate states the
range the call returns in:

- `uniform(a, b)` returns a value in the closed interval [a, b], except the initial
  position, which is in [0, 1000) (see below);
- `random()` returns a value in [0, 1);
- `choice` returns an index into its list;
- `randint(a, b)` returns a value in the closed range.

Once the draws are given, everything is deterministic.

Modules:

- `Decimal` renders a natural number in decimal and parses it back.
- `JobIds` holds `_new_job_id` and its inverse.
- `Rounding` is Python's `round(x, n)` for `n >= 0`, taken on exact reals.
- `Yard` holds the topology constants.
- `Transition` holds the vehicle state as a value:
  - `Initial` and `Step` are the pure specification of `__init__` and `tick`;
  - the lemmas about them state what a tick keeps and changes.
- `Vehicles` holds the class `AgvState`:
  - it has the source's mutable fields;
  - its constructor and `Tick` update them in place and are proved against `Initial` and
    `Step`;
  - its `ToDoc` builds the snapshot.
- `Fleet` is the per-tick batch loop.

## Model

| member | source | states |
|---|---|---|
| Decimal.Digits | sim.py:36 | The decimal rendering of a number is non-empty and all digits, with no leading zero for a positive number |
| Decimal.DigitsValueOfDigits | sim.py:36 | Reading back the decimal rendering of n gives n |
| Decimal.DigitsLength | sim.py:36 | A number in [10^(k-1), 10^k) renders as exactly k digits |
| Decimal.DigitsValueBounds | sim.py:36 | A string of k digits whose first digit is not 0 denotes a value in [10^(k-1), 10^k) |
| Decimal.DigitsOfDigitsValue | sim.py:36 | A digit string with no leading zero is the rendering of the value it denotes |
| JobIds.NewJobId | sim.py:35-36 | For a job number in [100000, 999999], `JOB-` plus its digits is a 10-character job id: the prefix, then six digits with no leading zero, and those digits denote the job number |
| JobIds.ParseJobId | sim.py:35-36 | Parsing succeeds exactly on well-formed job ids. It returns the in-range number whose rendering is the input |
| JobIds.JobIdRoundTrip | sim.py:35-36 | Parsing the job id of any in-range number gives that number back |
| JobIds.JobIdInjective | sim.py:35-36 | Two different job numbers never give the same job id |
| Yard.ChosenBlock | sim.py:27 | A block drawn from the yard blocks is one of them and has a lane list |
| Yard.ChosenLane | sim.py:27-28 | A lane drawn from the chosen block's lanes belongs to that block |
| Yard.EveryBlockHasLanes | sim.py:16-21 | Every yard block has at least one lane to draw |
| Yard.BlocksAreTheLaneKeys | sim.py:16-21 | The blocks with lanes are exactly the yard blocks |
| Yard.LaneDeterminesBlock | sim.py:17-21 | No lane belongs to two blocks |
| Transition.Initial | sim.py:25-33 | A new vehicle keeps its id and has its lane in its block. Its speed is in [8, 14] and its charge in [60, 100]. Its position is in [0, 1000). Its job id parses back to the drawn number |
| Transition.ClampSpeed | sim.py:41 | The clamped speed is in [4, 18]. A speed already in range is unchanged, and one out of range goes to the nearer end |
| Transition.MetersPerSecond | sim.py:44 | The m/s value times 3.6 is the km/h value |
| Transition.Toggled | sim.py:53 | Toggling always changes the load status |
| Transition.ToggledTwice | sim.py:53 | Toggling twice restores the load status |
| Transition.Step | sim.py:38-64 | Defined by its body: the state `tick(dt)` leaves behind, with the updates in the source's order. Its contract is carried by the lemmas StepKeepsInvariants, StepOnCompletion, StepWithoutCompletion, StepCharge, HighChargeNeverRecharges, ChargeHasNoFloor and JobIdMayRepeat |
| Transition.StepKeepsInvariants | sim.py:38-64 | A tick keeps the id and puts the speed in [4, 18] whatever the incoming speed. A non-negative position and tick give a position in [0, 1000). The vehicle invariants carry over: lane in block and a valid job id, plus, for a non-negative tick, position in [0, 1000) and charge at most 100 |
| Transition.TravelNotBackwards | sim.py:44-45 | With a non-negative tick, the position before any reset never decreases |
| Transition.DrainBounds | sim.py:60 | With a non-negative tick, the drain removes between 0.01·dt and 0.05·dt of charge |
| Transition.StepOnCompletion | sim.py:48-57 | On lane completion the position becomes 0 and the job id is the fresh draw. The load status flips exactly when the flip draw is below 0.5. Block and lane are re-drawn when the reassign draw is below 0.3 and are unchanged otherwise |
| Transition.StepWithoutCompletion | sim.py:44-57 | Short of the lane end, the position is the travelled one, below 1000 and not behind the old one for a non-negative tick. Job id, load status, block and lane are unchanged |
| Transition.CompletesNearLaneEnd | sim.py:41-48 | A vehicle within one minimum-speed tick of the lane end completes the lane whatever the speed draw |
| Transition.DisplacementMonotone | sim.py:44-45 | For the same non-negative tick, a higher speed covers at least as much ground |
| Transition.FlipIgnoresReassign | sim.py:52-57 | The load-status outcome does not depend on the reassignment draws |
| Transition.ReassignIgnoresFlip | sim.py:52-57 | The block and lane outcome does not depend on the flip draw |
| Transition.StepCharge | sim.py:60-64 | A drained charge of at least 30 is kept. Below 30, the charge ends in [70, 100] exactly when the recharge draw is below 0.01, and otherwise stays at the drained value |
| Transition.HighChargeNeverRecharges | sim.py:60-64 | A charge that cannot fall below 30 within the tick is only drained, by 0.01·dt to 0.05·dt |
| Transition.ChargeHasNoFloor | sim.py:60-64 | Without a recharge, a long enough tick leaves the charge negative: nothing clamps it at 0 |
| Transition.JobIdMayRepeat | sim.py:48-50 | A lane completion whose job draw repeats the current number leaves the job id unchanged |
| Transition.Run | sim.py:105-109 | Defined by its body: one vehicle ticked once per draw record, in order. Its contract is carried by the lemma RunKeepsInvariants |
| Transition.RunKeepsInvariants | sim.py:105-109 | After any number of ticks the vehicle keeps its id and its invariants. For a non-negative tick it also stays in service |
| Vehicles.AgvState.constructor | sim.py:25-33 | The new object's fields are `Initial` of its id and draws, so the vehicle starts valid and in service |
| Vehicles.AgvState.Tick | sim.py:38-64 | The fields afterwards are `Step` of the fields before, and validity is preserved |
| Vehicles.AgvState.ToDoc | sim.py:66-78 | The snapshot is in mode `BAU` with the given timestamp. Id, block, lane, job id and load-status name are copied. Position and speed are within 0.005 of the raw values and are whole hundredths; charge is within 0.05 and a whole tenth. A valid vehicle gives a well-formed snapshot, with speed still in [4, 18], and a position on the lane stays on it |
| Vehicles.RenderedPositionMayReachLaneEnd | sim.py:72 | A position strictly short of 1000 can be rendered as exactly 1000.0 |
| Rounding.NearestInt | sim.py:72-74 | The result is within 0.5 of its argument, and a tie goes to the even integer |
| Rounding.NearestIntMonotone | sim.py:72-74 | Rounding to integers keeps order |
| Rounding.RoundAt | sim.py:72-74 | Defined by its body: the nearest multiple of 1/s, ties to the even multiple. Its contract is carried by RoundAtError, RoundAtOnGrid, RoundAtMonotone, RoundAtGridPoint and RoundAtWithin |
| Rounding.Round | sim.py:72-74 | `round(x, n)` is within half a unit 10^-n of x; RoundAtOnGrid adds that it is a whole number of such units |
| Rounding.RoundAtOnGrid | sim.py:72-74 | The result of rounding is a whole number of units of the last kept place |
| Rounding.RoundAtError | sim.py:72-74 | `round` moves a value by at most half a unit of the last kept place |
| Rounding.RoundAtMonotone | sim.py:72-74 | `round` keeps order |
| Rounding.RoundAtGridPoint | sim.py:72-74 | A value already on the grid is unchanged |
| Rounding.RoundAtWithin | sim.py:72-74 | Rounding keeps a value inside an interval whose ends are on the grid |
| Fleet.TickFleet | sim.py:106-109 | One doc per vehicle, in fleet order. Vehicle i is stepped with its own draws and nothing else changes it. Doc i is vehicle i's snapshot afterwards and carries its id and mode `BAU`. Valid vehicles stay valid and give well-formed docs |

## Left out

- `bulk_index` (sim.py:81-94) is left out: an HTTP POST through `requests` and NDJSON
  serialisation through `json.dumps`, both foreign library calls.
- The environment reads (sim.py:9-13) and the credential check (sim.py:98-99) are left
  out. They are process state; the tick length `dt` is a parameter instead.
- The outer timing loop (sim.py:102-105, 112-115) is left out: `time.time`,
  `time.sleep` and the tick counter are timing, not logic.
- The construction of the fleet from `AGV_IDS` (sim.py:15, 101) is left out.
  `Fleet.TickFleet` takes any list of pairwise distinct vehicles. `main` builds them by
  separate constructor calls, so they are distinct.
- The timestamp `datetime.now(timezone.utc).isoformat()` (sim.py:68) is an opaque
  string parameter of `ToDoc`, one per vehicle in `TickFleet`.
- The `random` module's distributions and probabilities are left out. Only the range
  each draw falls in is modelled.
- Floating point: positions, speeds, charges and `dt` are exact reals.
  - `round` is round-half-even on the exact value, CPython's rule on the decimal value
    of the stored double.
  - Binary representation error is not modelled: `1000.0 / 3600.0` and the other
    operations are exact here.
- The load status is a two-valued datatype whose `Name()` is `"EMPTY"` or `"LOADED"`,
  not a free string. This makes "always one of the two" hold by construction. The
  snapshot still carries the text, and `WellFormedDoc` states it is one of the two.
  The source compares to `"EMPTY"` and otherwise writes `"EMPTY"` (sim.py:53), which
  agrees with the datatype toggle for these two values.
- The draws a tick does not consume, for example the job number on a tick that does not
  reach the lane end, are still fields of the draw record. The model does not capture
  which position in the random stream each draw takes.

The model follows what the code does, also where that is less than its comments
suggest (sim.py:47 says the vehicle picks a new job):

- A lane completion does not always give a different job id. `randint` may draw the
  current number again (`Transition.JobIdMayRepeat`).
- `uniform(a, b)` is documented to return a value in [a, b], and CPython computes it as
  `a + (b - a) * random()` with `random()` at most 1 - 2^-53. For the initial position,
  1000 times that value rounds to the largest double below 1000, so the position is
  in [0, 1000) from construction on. `InitDraws.InRange` and `InService` state that
  half-open range. The other `uniform` calls keep the closed range: `uniform(8, 14)`, for
  one, can return 14.0.
- The charge has no lower bound (`Transition.ChargeHasNoFloor`).
- The rendered position may be exactly 1000.0 although the stored position is always
  below 1000 (`Vehicles.RenderedPositionMayReachLaneEnd`).
