/** The one-vehicle state machine of sim.py (`AGVState.__init__` and `AGVState.tick`)
    as pure functions. Every `random.*` call becomes a field of a draw record whose
    `InRange` predicate states the range that call is guaranteed to return in. */
module Transition {
  import opened Yard
  import opened JobIds

  /** The lane length in metres. */
  const LaneLength: real := 1000.0
  /** The clamp on speed, in km/h. */
  const MinSpeed: real := 4.0
  const MaxSpeed: real := 18.0
  /** The list `random.choice` picks the initial load status from. */
  const LoadStatuses: seq<LoadStatus> := [Empty, Loaded]
  /** A completed lane flips the load status when the flip draw is below this. */
  const FlipBelow: real := 0.5
  /** A completed lane re-picks block and lane when the reassign draw is below this. */
  const ReassignBelow: real := 0.3
  /** Charge below this may be reset by an abrupt recharge. */
  const LowCharge: real := 30.0
  /** A low charge is reset when the recharge draw is below this. */
  const RechargeBelow: real := 0.01

  /** The attributes of one AGV. */
  datatype State = State(
    agvId: string,
    yardBlock: string,
    laneId: string,
    positionM: real,
    speedKph: real,
    socPct: real,
    jobId: string,
    loadStatus: LoadStatus)

  /** The two values the load status takes; `Name` is the text that stands for each. */
  datatype LoadStatus = Empty | Loaded {
    function Name(): string {
      if Empty? then "EMPTY" else "LOADED"
    }
  }

  /** What holds of every vehicle at all times, whatever the tick length. */
  predicate WellFormed(s: State) {
    LaneInBlock(s.yardBlock, s.laneId)
    && MinSpeed <= s.speedKph <= MaxSpeed
    && IsJobId(s.jobId)
  }

  /** What also holds while the tick length is never negative: the position is on the
      lane, short of its end, and the charge has never been above 100. */
  predicate InService(s: State) {
    WellFormed(s) && 0.0 <= s.positionM < LaneLength && s.socPct <= 100.0
  }

  /** The draws `__init__` makes, in the order it makes them. */
  datatype InitDraws = InitDraws(
    blockIndex: int,   // random.choice(YARD_BLOCKS)
    laneIndex: int,    // random.choice(LANES_BY_BLOCK[block])
    positionM: real,   // random.uniform(0, 1000): 1000 * random(), below 1000
    speedKph: real,    // random.uniform(8, 14)
    socPct: real,      // random.uniform(60, 100)
    jobNumber: nat,    // random.randint(100000, 999999)
    loadIndex: int)    // random.choice(["EMPTY", "LOADED"])
  {
    /** `uniform(a, b)` returns `a + (b - a) * random()`, a value in [a, b]; for the
        position that product never rounds up to 1000, so it is in [0, 1000).
        `choice` returns an index of the list. */
    predicate InRange() {
      IsChoice(blockIndex, laneIndex)
      && 0.0 <= positionM < LaneLength
      && 8.0 <= speedKph <= 14.0
      && 60.0 <= socPct <= 100.0
      && MinJobNumber <= jobNumber <= MaxJobNumber
      && 0 <= loadIndex < |LoadStatuses|
    }
  }

  /** The draws one `tick` can make. Those for a lane completion, a reassignment or a
      recharge are only consumed when that branch is taken. */
  datatype TickDraws = TickDraws(
    speedDelta: real,    // random.uniform(-1.0, 1.0)
    jobNumber: nat,      // random.randint(100000, 999999), via _new_job_id
    flipDraw: real,      // random.random()
    reassignDraw: real,  // random.random()
    blockIndex: int,     // random.choice(YARD_BLOCKS)
    laneIndex: int,      // random.choice(LANES_BY_BLOCK[block])
    drainRate: real,     // random.uniform(0.01, 0.05)
    rechargeDraw: real,  // random.random()
    rechargeLevel: real) // random.uniform(70, 100)
  {
    /** `random()` returns a value in [0, 1); `uniform(a, b)` one in [a, b]. */
    predicate InRange() {
      -1.0 <= speedDelta <= 1.0
      && MinJobNumber <= jobNumber <= MaxJobNumber
      && 0.0 <= flipDraw < 1.0
      && 0.0 <= reassignDraw < 1.0
      && IsChoice(blockIndex, laneIndex)
      && 0.01 <= drainRate <= 0.05
      && 0.0 <= rechargeDraw < 1.0
      && 70.0 <= rechargeLevel <= 100.0
    }
  }

  /** A freshly created vehicle. */
  function Initial(agvId: string, d: InitDraws): (s: State)
    requires d.InRange()
    ensures InService(s) && s.agvId == agvId
    ensures 8.0 <= s.speedKph <= 14.0 && 60.0 <= s.socPct
    ensures s.yardBlock in YardBlocks
    ensures ParseJobId(s.jobId) == Some(d.jobNumber)
  {
    JobIdRoundTrip(d.jobNumber);
    State(agvId, ChosenBlock(d.blockIndex), ChosenLane(d.blockIndex, d.laneIndex),
          d.positionM, d.speedKph, d.socPct, NewJobId(d.jobNumber), LoadStatuses[d.loadIndex])
  }

  /** `max(4.0, min(v, 18.0))`. */
  function ClampSpeed(v: real): (r: real)
    ensures MinSpeed <= r <= MaxSpeed
    ensures MinSpeed <= v <= MaxSpeed ==> r == v
    ensures v < MinSpeed ==> r == MinSpeed
    ensures v > MaxSpeed ==> r == MaxSpeed
  {
    var lower := if v < MaxSpeed then v else MaxSpeed;
    if MinSpeed < lower then lower else MinSpeed
  }

  /** km/h to m/s. */
  function MetersPerSecond(kph: real): (mps: real)
    ensures mps * 3.6 == kph
  {
    (kph * 1000.0) / 3600.0
  }

  /** The other load status. */
  function Toggled(status: LoadStatus): (r: LoadStatus)
    ensures r != status
  {
    if status == Empty then Loaded else Empty
  }

  /** Toggling twice gives back any load status. */
  lemma ToggledTwice(status: LoadStatus)
    ensures Toggled(Toggled(status)) == status
  {
  }

  /** The speed after the drift and the clamp. */
  function NewSpeed(s: State, d: TickDraws): real {
    ClampSpeed(s.speedKph + d.speedDelta)
  }

  /** The distance in metres covered in dt seconds at a speed in km/h. */
  function Displacement(kph: real, dt: real): real {
    MetersPerSecond(kph) * dt
  }

  /** The position after moving for dt seconds at the new speed, before any reset. */
  function Travelled(s: State, dt: real, d: TickDraws): real {
    s.positionM + Displacement(NewSpeed(s, d), dt)
  }

  /** The tick reaches the end of the lane. */
  predicate Completes(s: State, dt: real, d: TickDraws) {
    Travelled(s, dt, d) >= LaneLength
  }

  /** The charge after the drain, before any recharge. */
  function Drained(s: State, dt: real, d: TickDraws): real {
    s.socPct - d.drainRate * dt
  }

  /** The state `tick(dt)` leaves behind. */
  function Step(s: State, dt: real, d: TickDraws): State
    requires d.InRange()
  {
    var done := Completes(s, dt, d);
    var reassigned := done && d.reassignDraw < ReassignBelow;
    var drained := Drained(s, dt, d);
    State(
      s.agvId,
      if reassigned then ChosenBlock(d.blockIndex) else s.yardBlock,
      if reassigned then ChosenLane(d.blockIndex, d.laneIndex) else s.laneId,
      if done then 0.0 else Travelled(s, dt, d),
      NewSpeed(s, d),
      if drained < LowCharge && d.rechargeDraw < RechargeBelow then d.rechargeLevel else drained,
      if done then NewJobId(d.jobNumber) else s.jobId,
      if done && d.flipDraw < FlipBelow then Toggled(s.loadStatus) else s.loadStatus)
  }

  /** What a tick keeps: the identifier, the speed clamp whatever the incoming speed, the
      position on the lane for a non-negative tick, and the vehicle invariants. */
  lemma StepKeepsInvariants(s: State, dt: real, d: TickDraws)
    requires d.InRange()
    ensures var r := Step(s, dt, d);
      && r.agvId == s.agvId
      && MinSpeed <= r.speedKph <= MaxSpeed
      && (s.positionM >= 0.0 && dt >= 0.0 ==> 0.0 <= r.positionM < LaneLength)
      && (WellFormed(s) ==> WellFormed(r))
      && (InService(s) && dt >= 0.0 ==> InService(r))
  {
    TravelNotBackwards(s, dt, d);
    DrainBounds(s, dt, d);
  }

  /** With a non-negative tick the vehicle never moves backwards. */
  lemma TravelNotBackwards(s: State, dt: real, d: TickDraws)
    ensures dt >= 0.0 ==> Travelled(s, dt, d) >= s.positionM
  {
    var v := MetersPerSecond(NewSpeed(s, d));
    assert v >= 0.0;
    if dt >= 0.0 {
      assert v * dt >= 0.0;
    }
  }

  /** With a non-negative tick the drain takes between 0.01·dt and 0.05·dt off the charge. */
  lemma DrainBounds(s: State, dt: real, d: TickDraws)
    requires d.InRange()
    ensures dt >= 0.0 ==> s.socPct - 0.05 * dt <= Drained(s, dt, d) <= s.socPct - 0.01 * dt
  {
    if dt >= 0.0 {
      assert (d.drainRate - 0.01) * dt >= 0.0;
      assert (0.05 - d.drainRate) * dt >= 0.0;
    }
  }

  /** Reaching the end of the lane resets the position, installs the freshly drawn job,
      flips the load status exactly when the flip draw is below 0.5, and re-picks block
      and lane exactly when the reassign draw is below 0.3. */
  lemma StepOnCompletion(s: State, dt: real, d: TickDraws)
    requires d.InRange() && Completes(s, dt, d)
    ensures var r := Step(s, dt, d);
      && r.positionM == 0.0
      && r.jobId == NewJobId(d.jobNumber)
      && ParseJobId(r.jobId) == Some(d.jobNumber)
      && (r.loadStatus != s.loadStatus <==> d.flipDraw < FlipBelow)
      && (d.reassignDraw < ReassignBelow ==>
            r.yardBlock == ChosenBlock(d.blockIndex) && r.laneId == ChosenLane(d.blockIndex, d.laneIndex))
      && (d.reassignDraw >= ReassignBelow ==> r.yardBlock == s.yardBlock && r.laneId == s.laneId)
  {
    JobIdRoundTrip(d.jobNumber);
  }

  /** Short of the end of the lane, the vehicle only moves: job, load status, block and
      lane stay as they were, and a non-negative tick never moves it backwards. */
  lemma StepWithoutCompletion(s: State, dt: real, d: TickDraws)
    requires d.InRange() && !Completes(s, dt, d)
    ensures var r := Step(s, dt, d);
      && r.positionM == Travelled(s, dt, d) < LaneLength
      && (dt >= 0.0 ==> r.positionM >= s.positionM)
      && r.jobId == s.jobId
      && r.loadStatus == s.loadStatus
      && r.yardBlock == s.yardBlock
      && r.laneId == s.laneId
  {
    TravelNotBackwards(s, dt, d);
  }

  /** A vehicle within one minimum-speed tick of the lane end completes the lane,
      whatever the speed draw. */
  lemma CompletesNearLaneEnd(s: State, dt: real, d: TickDraws)
    requires d.InRange() && dt >= 0.0
    requires s.positionM + Displacement(MinSpeed, dt) >= LaneLength
    ensures Completes(s, dt, d)
    ensures Step(s, dt, d).positionM == 0.0
  {
    DisplacementMonotone(MinSpeed, NewSpeed(s, d), dt);
  }

  /** Going faster for the same non-negative time covers at least as much ground. */
  lemma DisplacementMonotone(slower: real, faster: real, dt: real)
    requires slower <= faster && dt >= 0.0
    ensures Displacement(slower, dt) <= Displacement(faster, dt)
  {
    assert (MetersPerSecond(faster) - MetersPerSecond(slower)) * dt >= 0.0;
  }

  /** The load-status outcome does not depend on the reassignment draws. */
  lemma FlipIgnoresReassign(s: State, dt: real, d1: TickDraws, d2: TickDraws)
    requires d1.InRange() && d2.InRange()
    requires d1.speedDelta == d2.speedDelta && d1.flipDraw == d2.flipDraw
    ensures Step(s, dt, d1).loadStatus == Step(s, dt, d2).loadStatus
  {
  }

  /** The block and lane outcome does not depend on the flip draw. */
  lemma ReassignIgnoresFlip(s: State, dt: real, d1: TickDraws, d2: TickDraws)
    requires d1.InRange() && d2.InRange()
    requires d1.speedDelta == d2.speedDelta && d1.reassignDraw == d2.reassignDraw
    requires d1.blockIndex == d2.blockIndex && d1.laneIndex == d2.laneIndex
    ensures Step(s, dt, d1).yardBlock == Step(s, dt, d2).yardBlock
    ensures Step(s, dt, d1).laneId == Step(s, dt, d2).laneId
  {
  }

  /** The charge rules: the drained value stands unless it is below 30; below 30 the
      charge lands in [70, 100] exactly when the recharge draw is below 0.01. */
  lemma StepCharge(s: State, dt: real, d: TickDraws)
    requires d.InRange()
    ensures var r := Step(s, dt, d); var drained := Drained(s, dt, d);
      && (drained >= LowCharge ==> r.socPct == drained)
      && (drained < LowCharge ==> (70.0 <= r.socPct <= 100.0 <==> d.rechargeDraw < RechargeBelow))
      && (drained < LowCharge && d.rechargeDraw >= RechargeBelow ==> r.socPct == drained)
  {
  }

  /** A charge that cannot fall below 30 within the tick is never reset: it is drained
      by between 0.01·dt and 0.05·dt and nothing else. */
  lemma HighChargeNeverRecharges(s: State, dt: real, d: TickDraws)
    requires d.InRange() && dt >= 0.0
    requires s.socPct - 0.05 * dt >= LowCharge
    ensures var r := Step(s, dt, d);
      && r.socPct == Drained(s, dt, d) >= LowCharge
      && s.socPct - 0.05 * dt <= r.socPct <= s.socPct - 0.01 * dt
  {
    DrainBounds(s, dt, d);
  }

  /** Nothing clamps the charge at 0: when the recharge draw misses, a long enough
      tick leaves it negative. */
  lemma ChargeHasNoFloor(s: State, dt: real, d: TickDraws)
    requires d.InRange() && dt >= 0.0
    requires d.rechargeDraw >= RechargeBelow
    requires s.socPct - 0.01 * dt < 0.0
    ensures Step(s, dt, d).socPct < 0.0
  {
    DrainBounds(s, dt, d);
  }

  /** A completed lane need not change the job identifier: the new draw may repeat
      the number the old identifier carries. */
  lemma JobIdMayRepeat(s: State, dt: real, d: TickDraws)
    requires d.InRange() && Completes(s, dt, d)
    requires ParseJobId(s.jobId) == Some(d.jobNumber)
    ensures Step(s, dt, d).jobId == s.jobId
  {
  }

  /** The state after ticking once per draw record, in order. */
  function Run(s: State, dt: real, ds: seq<TickDraws>): State
    requires forall i :: 0 <= i < |ds| ==> ds[i].InRange()
    decreases |ds|
  {
    if ds == [] then s else Run(Step(s, dt, ds[0]), dt, ds[1..])
  }

  /** The invariants hold after any number of ticks: speed within the clamp, lane in
      its block, a valid load status and job id; and, for a non-negative tick, the
      position on the lane and the charge at most 100. */
  lemma {:induction false} RunKeepsInvariants(s: State, dt: real, ds: seq<TickDraws>)
    requires forall i :: 0 <= i < |ds| ==> ds[i].InRange()
    requires WellFormed(s)
    ensures WellFormed(Run(s, dt, ds))
    ensures InService(s) && dt >= 0.0 ==> InService(Run(s, dt, ds))
    ensures Run(s, dt, ds).agvId == s.agvId
    decreases |ds|
  {
    if ds != [] {
      StepKeepsInvariants(s, dt, ds[0]);
      RunKeepsInvariants(Step(s, dt, ds[0]), dt, ds[1..]);
    }
  }
}
