/** One tick of the fleet, as the inner loop of `main` in sim.py runs it: every vehicle,
    in list order, is ticked and then rendered, and the snapshots are collected. */
module Fleet {
  import opened Transition
  import opened Vehicles

  /** No vehicle appears twice in the fleet list. */
  predicate Distinct(agvs: seq<AgvState>) {
    forall i, j :: 0 <= i < j < |agvs| ==> agvs[i] != agvs[j]
  }

  /** The batch of one tick. `draws[i]` are vehicle i's draws and `timestamps[i]` the
      clock reading taken when its snapshot is rendered. */
  method TickFleet(agvs: seq<AgvState>, dt: real, draws: seq<TickDraws>, timestamps: seq<string>)
    returns (docs: seq<Doc>)
    requires Distinct(agvs)
    requires |draws| == |agvs| && |timestamps| == |agvs|
    requires forall i :: 0 <= i < |draws| ==> draws[i].InRange()
    modifies set i | 0 <= i < |agvs| :: agvs[i]
    ensures |docs| == |agvs|
    ensures forall i :: 0 <= i < |agvs| ==> agvs[i].Abs() == Step(old(agvs[i].Abs()), dt, draws[i])
    ensures forall i :: 0 <= i < |agvs| ==> docs[i] == agvs[i].ToDoc(timestamps[i])
    ensures forall i :: 0 <= i < |agvs| ==> docs[i].agvId == agvs[i].agvId && docs[i].mode == BauMode
    ensures forall i :: 0 <= i < |agvs| ==> old(agvs[i].Valid()) ==> agvs[i].Valid() && WellFormedDoc(docs[i])
  {
    docs := [];
    var k := 0;
    while k < |agvs|
      invariant 0 <= k <= |agvs|
      invariant |docs| == k
      invariant forall i :: 0 <= i < k ==> agvs[i].Abs() == Step(old(agvs[i].Abs()), dt, draws[i])
      invariant forall i :: 0 <= i < k ==> docs[i] == agvs[i].ToDoc(timestamps[i])
      invariant forall i :: k <= i < |agvs| ==> agvs[i].Abs() == old(agvs[i].Abs())
    {
      var agv := agvs[k];
      assert forall i :: 0 <= i < |agvs| && i != k ==> agvs[i] != agv;
      agv.Tick(dt, draws[k]);
      docs := docs + [agv.ToDoc(timestamps[k])];
      k := k + 1;
    }
    forall i | 0 <= i < |agvs|
      ensures old(agvs[i].Valid()) ==> agvs[i].Valid()
    {
      StepKeepsInvariants(old(agvs[i].Abs()), dt, draws[i]);
    }
  }
}
