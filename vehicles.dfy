/** The `AGVState` class of sim.py: one vehicle whose fields `tick` updates in place,
    and the snapshot record `to_doc` renders from them. */
module Vehicles {
  import opened Yard
  import opened JobIds
  import opened Rounding
  import opened Transition

  /** The `mode` tag of every snapshot. */
  const BauMode: string := "BAU"

  /** One snapshot record as `to_doc` builds it. */
  datatype Doc = Doc(
    timestamp: string,
    agvId: string,
    yardBlock: string,
    laneId: string,
    positionM: real,
    speedKph: real,
    socPct: real,
    jobId: string,
    loadStatus: string,
    mode: string)

  /** What every snapshot of a well-formed vehicle satisfies. */
  predicate WellFormedDoc(d: Doc) {
    d.mode == BauMode
    && LaneInBlock(d.yardBlock, d.laneId)
    && (d.loadStatus == "EMPTY" || d.loadStatus == "LOADED")
    && IsJobId(d.jobId)
    && MinSpeed <= d.speedKph <= MaxSpeed
  }

  class AgvState {
    const agvId: string
    var yardBlock: string
    var laneId: string
    var positionM: real
    var speedKph: real
    var socPct: real
    var jobId: string
    var loadStatus: LoadStatus

    /** The vehicle's attributes as a value. */
    function Abs(): State
      reads this
    {
      State(agvId, yardBlock, laneId, positionM, speedKph, socPct, jobId, loadStatus)
    }

    predicate Valid()
      reads this
    {
      WellFormed(Abs())
    }

    /** `AGVState(agv_id)` with the initial draws given. */
    constructor (agvId: string, d: InitDraws)
      requires d.InRange()
      ensures Abs() == Initial(agvId, d)
      ensures Valid() && InService(Abs())
    {
      this.agvId := agvId;
      yardBlock := ChosenBlock(d.blockIndex);
      laneId := ChosenLane(d.blockIndex, d.laneIndex);
      positionM := d.positionM;
      speedKph := d.speedKph;
      socPct := d.socPct;
      jobId := NewJobId(d.jobNumber);
      loadStatus := LoadStatuses[d.loadIndex];
    }

    /** `tick(dt_sec)` with the draws given. */
    method Tick(dt: real, d: TickDraws)
      requires d.InRange()
      modifies this
      ensures Abs() == Step(old(Abs()), dt, d)
      ensures old(Valid()) ==> Valid()
    {
      ghost var before := Abs();
      speedKph := speedKph + d.speedDelta;
      speedKph := ClampSpeed(speedKph);
      assert speedKph == NewSpeed(before, d);

      positionM := positionM + Displacement(speedKph, dt);
      assert positionM == Travelled(before, dt, d);

      if positionM >= LaneLength {
        positionM := 0.0;
        jobId := NewJobId(d.jobNumber);
        if d.flipDraw < FlipBelow {
          loadStatus := Toggled(loadStatus);
        }
        if d.reassignDraw < ReassignBelow {
          yardBlock := ChosenBlock(d.blockIndex);
          laneId := ChosenLane(d.blockIndex, d.laneIndex);
        }
      }


      socPct := socPct - d.drainRate * dt;
      assert socPct == Drained(before, dt, d);
      if socPct < LowCharge {
        if d.rechargeDraw < RechargeBelow {
          socPct := d.rechargeLevel;
        }
      }
      StepKeepsInvariants(before, dt, d);
    }

    /** `to_doc()`, stamped with the time the clock returned. Position and speed are
        rounded to 2 places and the charge to 1 place; the other attributes are copied. */
    function ToDoc(timestamp: string): (d: Doc)
      reads this
      ensures d.mode == BauMode && d.timestamp == timestamp
      ensures d.agvId == agvId && d.yardBlock == yardBlock && d.laneId == laneId
      ensures d.jobId == jobId && d.loadStatus == loadStatus.Name()
      ensures positionM - 0.005 <= d.positionM <= positionM + 0.005
      ensures speedKph - 0.005 <= d.speedKph <= speedKph + 0.005
      ensures socPct - 0.05 <= d.socPct <= socPct + 0.05
      ensures (d.positionM * 100.0).Floor as real == d.positionM * 100.0
      ensures (d.speedKph * 100.0).Floor as real == d.speedKph * 100.0
      ensures (d.socPct * 10.0).Floor as real == d.socPct * 10.0
      ensures Valid() ==> WellFormedDoc(d)
      ensures 0.0 <= positionM <= LaneLength ==> 0.0 <= d.positionM <= LaneLength
    {
      assert Scale(1) == 10.0 && Scale(2) == 100.0;
      RoundAtError(positionM, 100.0);
      RoundAtError(speedKph, 100.0);
      RoundAtError(socPct, 10.0);
      RoundAtOnGrid(positionM, 100.0);
      RoundAtOnGrid(speedKph, 100.0);
      RoundAtOnGrid(socPct, 10.0);
      RoundAtGridPoint(MinSpeed, 100.0);
      RoundAtGridPoint(MaxSpeed, 100.0);
      RoundAtGridPoint(0.0, 100.0);
      RoundAtGridPoint(LaneLength, 100.0);
      RoundAtWithin(speedKph, MinSpeed, MaxSpeed, 100.0);
      RoundAtWithin(positionM, 0.0, LaneLength, 100.0);
      Doc(timestamp, agvId, yardBlock, laneId,
          Round(positionM, 2), Round(speedKph, 2), Round(socPct, 1),
          jobId, loadStatus.Name(), BauMode)
    }
  }

  /** A position strictly short of the lane end can still be rendered as exactly the
      lane length, because `to_doc` rounds it to 2 places. */
  lemma RenderedPositionMayReachLaneEnd()
    ensures 999.999 < LaneLength && Round(999.999, 2) == LaneLength
  {
    assert Scale(2) == 100.0;
    assert NearestInt(99999.9) == 100000;
  }
}
