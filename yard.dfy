/** The yard topology of sim.py: the fixed yard blocks and the lanes of each block. */
module Yard {

  const YardBlocks: seq<string> := ["YB10", "YB11", "YB12"]

  const LanesByBlock: map<string, seq<string>> := map[
    "YB10" := ["L41", "L42"],
    "YB11" := ["L43", "L44"],
    "YB12" := ["L45", "L46"]
  ]

  /** The topology invariant a vehicle keeps: its lane is one of its block's lanes. */
  predicate LaneInBlock(block: string, lane: string) {
    block in LanesByBlock && lane in LanesByBlock[block]
  }

  /** The indices `random.choice(YARD_BLOCKS)` and then
      `random.choice(LANES_BY_BLOCK[block])` can return. */
  predicate IsChoice(blockIndex: int, laneIndex: int) {
    0 <= blockIndex < |YardBlocks|
    && YardBlocks[blockIndex] in LanesByBlock
    && 0 <= laneIndex < |LanesByBlock[YardBlocks[blockIndex]]|
  }

  /** The block a `random.choice(YARD_BLOCKS)` draw picks. */
  function ChosenBlock(blockIndex: int): (block: string)
    requires 0 <= blockIndex < |YardBlocks|
    ensures block in YardBlocks && block in LanesByBlock
  {
    YardBlocks[blockIndex]
  }

  /** The lane the second draw picks from the chosen block's lanes. */
  function ChosenLane(blockIndex: int, laneIndex: int): (lane: string)
    requires IsChoice(blockIndex, laneIndex)
    ensures LaneInBlock(ChosenBlock(blockIndex), lane)
  {
    LanesByBlock[YardBlocks[blockIndex]][laneIndex]
  }

  /** Every block has lanes to choose from, so the two draws never fail. */
  lemma EveryBlockHasLanes(blockIndex: int)
    requires 0 <= blockIndex < |YardBlocks|
    ensures IsChoice(blockIndex, 0)
  {
  }

  /** The blocks that have lanes are exactly the yard blocks. */
  lemma BlocksAreTheLaneKeys()
    ensures forall b :: b in LanesByBlock <==> b in YardBlocks
  {
  }

  /** No lane belongs to two blocks: a lane determines its block. */
  lemma LaneDeterminesBlock(b1: string, b2: string, lane: string)
    requires LaneInBlock(b1, lane) && LaneInBlock(b2, lane)
    ensures b1 == b2
  {
  }
}
