/** Discovery of targets (listeners/BlockFindListener.java): when a player
    toggles sneak, the block at their position and the two below it are
    checked in that order, and only the first target among them is credited.
    The world lookup is given as the three block kinds. */
module BlockFindListener {
  import opened Common
  import Blocks
  import Plugin

  /** The block kinds at the player's position, one below and two below. */
  datatype Column = Column(at: Material, below: Material, twoBelow: Material)

  /** The candidates in the order the handler checks them. */
  function Candidates(c: Column): (s: seq<Material>)
    ensures |s| == 3 && s[0] == c.at && s[1] == c.below && s[2] == c.twoBelow
  {
    [c.at, c.below, c.twoBelow]
  }

  /** The first candidate that is a current target, if any. */
  function FirstTarget(candidates: seq<Material>, bm: Blocks.BlockManager): (r: Option<Material>)
    ensures r.None? <==> forall k :: 0 <= k < |candidates| ==> !Blocks.IsTarget(bm, candidates[k])
    ensures r.Some? ==> exists k :: 0 <= k < |candidates| && candidates[k] == r.value && Blocks.IsTarget(bm, r.value)
                                    && forall j :: 0 <= j < k ==> !Blocks.IsTarget(bm, candidates[j])
  {
    if |candidates| == 0 then None
    else if Blocks.IsTarget(bm, candidates[0]) then Some(candidates[0])
    else
      var r := FirstTarget(candidates[1..], bm);
      assert forall k :: 1 <= k < |candidates| ==> candidates[1..][k - 1] == candidates[k];
      if r.Some? then
        var k :| 0 <= k < |candidates[1..]| && candidates[1..][k] == r.value && Blocks.IsTarget(bm, r.value)
                 && forall j :: 0 <= j < k ==> !Blocks.IsTarget(bm, candidates[1..][j]);
        assert candidates[k + 1] == r.value;
        r
      else r
  }

  /** What one sneak event did: nothing, or one credit of one block kind. */
  datatype Sneak = Ignored | Credited(block: Material, result: Blocks.FoundResult)

  /** `onPlayerToggleSneak`. */
  function OnPlayerToggleSneak(g: Plugin.State, finder: Player, column: Column, draws: seq<nat>): (r: Sneak)
    requires Plugin.Valid(g)
    ensures !Plugin.Running(g) ==> r == Ignored
    ensures r.Ignored? <==> !Plugin.Running(g) || forall k :: 0 <= k < 3 ==> !Blocks.IsTarget(g.blocks, Candidates(column)[k])
    ensures r.Credited? ==>
              && r.block == FirstTarget(Candidates(column), g.blocks).value
              && r.result == Blocks.HandleFoundBlock(g.blocks, g.ledger, finder, r.block, draws)
  {
    if !Blocks.HasCurrentTargets(g.blocks) then Ignored
    else
      match FirstTarget(Candidates(column), g.blocks)
      case None => Ignored
      case Some(m) => Credited(m, Blocks.HandleFoundBlock(g.blocks, g.ledger, finder, m, draws))
  }

  /** The block at the player's position wins over the blocks below it. */
  lemma OwnBlockFirst(g: Plugin.State, finder: Player, column: Column, draws: seq<nat>)
    requires Plugin.Valid(g) && Blocks.IsTarget(g.blocks, column.at)
    ensures OnPlayerToggleSneak(g, finder, column, draws).Credited?
    ensures OnPlayerToggleSneak(g, finder, column, draws).block == column.at
  {
  }

  /** A credited block is a target that no earlier candidate matched. */
  lemma CreditedIsFirstMatch(g: Plugin.State, finder: Player, column: Column, draws: seq<nat>)
    requires Plugin.Valid(g)
    requires OnPlayerToggleSneak(g, finder, column, draws).Credited?
    ensures var m := OnPlayerToggleSneak(g, finder, column, draws).block;
            && Blocks.IsTarget(g.blocks, m)
            && (m == column.at || (!Blocks.IsTarget(g.blocks, column.at)
                                   && (m == column.below || (!Blocks.IsTarget(g.blocks, column.below) && m == column.twoBelow))))
  {
  }
}
