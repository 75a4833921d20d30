/** Target selection and round state (game/BlockManager.java): the pool of
    candidate block kinds, the current targets and the credit guard.

    The random number generator is an oracle: `draws` lists the values it
    yields, and `draws[k] % |pool|` is the index `nextInt(|pool|)` returns at
    the k-th pick, which can be any legal index. */
module Blocks {
  import opened Common
  import TeamLedger

  const DefaultTargetCount: int := 3
  const MaxTargetCount: int := 8

  /** The constructor's validation of the configured target count. */
  function ClampTargetCount(configured: int): (n: int)
    ensures 1 <= n <= MaxTargetCount
    ensures 1 <= configured <= MaxTargetCount ==> n == configured
    ensures configured < 1 ==> n == DefaultTargetCount
    ensures configured > MaxTargetCount ==> n == MaxTargetCount
  {
    if configured < 1 then DefaultTargetCount
    else if configured > MaxTargetCount then MaxTargetCount
    else configured
  }

  /** `catalogue` is the host's full material enumeration; `blockTypes` is
      the pool and `currentTargets` the round's targets. */
  datatype BlockManager = BlockManager(
    catalogue: seq<Material>,
    targetCount: int,
    preventRepeats: bool,
    showScoresOnFound: bool,
    blockTypes: seq<Material>,
    currentTargets: set<Material>,
    processingFound: bool)

  /** The enumeration has no repeats, the count is in range, the pool has no
      repeats, and pool and targets hold block kinds of the enumeration only. */
  ghost predicate Valid(bm: BlockManager) {
    && Distinct(bm.catalogue)
    && 1 <= bm.targetCount <= MaxTargetCount
    && Distinct(bm.blockTypes)
    && (forall m :: m in bm.blockTypes ==> m in bm.catalogue && m.isBlock)
    && (forall m :: m in bm.currentTargets ==> m in bm.catalogue && m.isBlock)
    && |bm.currentTargets| <= bm.targetCount
  }

  /** The configuration and catalogue of `a` and `b` agree. */
  ghost predicate SameSettings(a: BlockManager, b: BlockManager) {
    && a.catalogue == b.catalogue
    && a.targetCount == b.targetCount
    && a.preventRepeats == b.preventRepeats
    && a.showScoresOnFound == b.showScoresOnFound
  }

  /** The constructor: the count is clamped, pool and targets start empty,
      and no credit is in progress. */
  function NewBlockManager(catalogue: seq<Material>, configuredCount: int, preventRepeats: bool, showScoresOnFound: bool): (bm: BlockManager)
    requires Distinct(catalogue)
    ensures Valid(bm)
    ensures bm.targetCount == ClampTargetCount(configuredCount)
    ensures bm.catalogue == catalogue && bm.preventRepeats == preventRepeats && bm.showScoresOnFound == showScoresOnFound
    ensures bm.blockTypes == [] && bm.currentTargets == {} && !bm.processingFound
  {
    BlockManager(catalogue, ClampTargetCount(configuredCount), preventRepeats, showScoresOnFound, [], {}, false)
  }

  /** The block kinds of the enumeration, in enumeration order. */
  function BlockTypesOf(catalogue: seq<Material>): (pool: seq<Material>)
    ensures forall m :: m in pool <==> m in catalogue && m.isBlock
    ensures Distinct(catalogue) ==> Distinct(pool)
    ensures |pool| <= |catalogue|
  {
    if |catalogue| == 0 then []
    else
      var rest := BlockTypesOf(catalogue[1..]);
      if catalogue[0].isBlock then [catalogue[0]] + rest else rest
  }

  /** `loadAllBlockTypes`: the pool becomes exactly the block kinds of the
      enumeration, whatever it held before. */
  function LoadAllBlockTypes(bm: BlockManager): (r: BlockManager)
    requires Valid(bm)
    ensures Valid(r) && SameSettings(bm, r)
    ensures forall m :: m in r.blockTypes <==> m in bm.catalogue && m.isBlock
    ensures r.currentTargets == bm.currentTargets && r.processingFound == bm.processingFound
  {
    bm.(blockTypes := BlockTypesOf(bm.catalogue))
  }

  /** Loading twice yields the pool of loading once. */
  lemma LoadAllBlockTypesIdempotent(bm: BlockManager)
    requires Valid(bm)
    ensures LoadAllBlockTypes(LoadAllBlockTypes(bm)) == LoadAllBlockTypes(bm)
  {
  }

  /** `clearBlockTypes`: the pool becomes empty. */
  function ClearBlockTypes(bm: BlockManager): (r: BlockManager)
    requires Valid(bm)
    ensures Valid(r) && SameSettings(bm, r)
    ensures |r.blockTypes| == 0
    ensures r.currentTargets == bm.currentTargets && r.processingFound == bm.processingFound
  {
    bm.(blockTypes := [])
  }

  /** Which exception cut a selection short in BlockManager.java. */
  datatype Failure =
    | NotEnoughBlockTypes   // the IllegalStateException of the pool-size check
    | EmptyBound            // nextInt(0): the pool ran dry inside the loop

  /** How a selection ended. `DrawsExhausted` means the oracle's list ran
      out while the Java loop would still be drawing. */
  datatype Exit = Normal | Thrown(failure: Failure) | DrawsExhausted

  /** Pool and targets where the drawing loop stopped. */
  datatype Draw = Draw(pool: seq<Material>, targets: set<Material>, exit: Exit)

  /** The loop of `selectNewTargets`: pick `pool[draws[k] % |pool|]` until
      `count` distinct targets are held, removing each pick from the pool
      when `removePicked`. */
  function DrawTargets(pool: seq<Material>, targets: set<Material>, count: int, removePicked: bool, draws: seq<nat>): (d: Draw)
    decreases |draws|
    ensures targets <= d.targets <= targets + Elems(pool)
    ensures |targets| <= count ==> |d.targets| <= count
    ensures d.exit.Normal? ==> |d.targets| >= count
    ensures d.exit != Thrown(NotEnoughBlockTypes)
    ensures d.exit == Thrown(EmptyBound) ==> d.pool == []
    ensures !removePicked ==> d.pool == pool
    ensures forall m :: m in d.pool ==> m in pool
  {
    if |targets| >= count then Draw(pool, targets, Normal)
    else if |pool| == 0 then Draw(pool, targets, Thrown(EmptyBound))
    else if |draws| == 0 then Draw(pool, targets, DrawsExhausted)
    else
      var i := draws[0] % |pool|;
      var rest := if removePicked then RemoveAt(pool, i) else pool;
      DrawTargets(rest, targets + {pool[i]}, count, removePicked, draws[1..])
  }

  /** With repeat prevention the loop moves kinds from the pool to the
      targets: nothing is lost, nothing is held twice. */
  lemma {:induction false} DrawWithoutRepeatsMovesPicks(pool: seq<Material>, targets: set<Material>, count: int, draws: seq<nat>)
    requires Distinct(pool) && targets !! Elems(pool)
    ensures var d := DrawTargets(pool, targets, count, true, draws);
            && Distinct(d.pool)
            && Elems(d.pool) == Elems(pool) - d.targets
            && d.targets !! Elems(d.pool)
            && |d.pool| + |d.targets| == |pool| + |targets|
    decreases |draws|
  {
    if |targets| < count && |pool| > 0 && |draws| > 0 {
      var i := draws[0] % |pool|;
      var rest := RemoveAt(pool, i);
      var picked := targets + {pool[i]};
      assert pool[i] !in targets;
      assert |picked| == |targets| + 1;
      assert picked !! Elems(rest);
      DrawWithoutRepeatsMovesPicks(rest, picked, count, draws[1..]);
    }
  }

  /** With repeat prevention every pick removes a fresh kind from the pool,
      so a pool large enough and one draw per missing target always finish. */
  lemma {:induction false} DrawWithoutRepeatsCompletes(pool: seq<Material>, targets: set<Material>, count: int, draws: seq<nat>)
    requires Distinct(pool) && targets !! Elems(pool)
    requires |targets| <= count <= |targets| + |pool|
    requires |draws| >= count - |targets|
    ensures DrawTargets(pool, targets, count, true, draws).exit == Normal
    decreases |draws|
  {
    if |targets| < count {
      var i := draws[0] % |pool|;
      assert pool[i] !in targets;
      DrawWithoutRepeatsCompletes(RemoveAt(pool, i), targets + {pool[i]}, count, draws[1..]);
    }
  }

  /** With repeat prevention and a pool too small for the count, the loop
      takes the whole pool and then asks `nextInt(0)`, which throws. */
  lemma {:induction false} DrawFromShortPoolThrows(pool: seq<Material>, targets: set<Material>, count: int, draws: seq<nat>)
    requires Distinct(pool) && targets !! Elems(pool)
    requires |targets| + |pool| < count
    requires |draws| >= |pool|
    ensures DrawTargets(pool, targets, count, true, draws) == Draw([], targets + Elems(pool), Thrown(EmptyBound))
    decreases |draws|
  {
    if |pool| > 0 {
      var i := draws[0] % |pool|;
      assert pool[i] !in targets;
      var rest := RemoveAt(pool, i);
      DrawFromShortPoolThrows(rest, targets + {pool[i]}, count, draws[1..]);
      assert targets + {pool[i]} + Elems(rest) == targets + Elems(pool);
    }
  }

  /** Without repeat prevention the loop is a random retry: it finishes as
      soon as the oracle's picks are fresh and distinct for as many draws as
      targets are missing. */
  lemma {:induction false} DrawWithRepeatsCompletes(pool: seq<Material>, targets: set<Material>, count: int, draws: seq<nat>)
    requires |pool| > 0 && |targets| <= count
    requires |draws| >= count - |targets|
    requires forall k :: 0 <= k < count - |targets| ==> pool[draws[k] % |pool|] !in targets
    requires forall k, l :: 0 <= k < l < count - |targets| ==> pool[draws[k] % |pool|] != pool[draws[l] % |pool|]
    ensures DrawTargets(pool, targets, count, false, draws).exit == Normal
    decreases |draws|
  {
    if |targets| < count {
      var pick := pool[draws[0] % |pool|];
      var rest := draws[1..];
      var picked := targets + {pick};
      assert pick !in targets;
      assert |picked| == |targets| + 1;
      var missing := count - |picked|;
      forall k | 0 <= k < missing
        ensures pool[rest[k] % |pool|] !in picked
      {
        assert rest[k] == draws[k + 1];
      }
      forall k, l | 0 <= k < l < missing
        ensures pool[rest[k] % |pool|] != pool[rest[l] % |pool|]
      {
        assert rest[k] == draws[k + 1] && rest[l] == draws[l + 1];
      }
      DrawWithRepeatsCompletes(pool, picked, count, rest);
    }
  }

  /** The selection's result: the manager afterwards and how the call ended. */
  datatype Selection = Selection(manager: BlockManager, exit: Exit)

  /** The pool the loop draws from: with repeat prevention a pool smaller
      than the count is first reloaded from the enumeration. */
  function PoolForDraw(bm: BlockManager): seq<Material> {
    if |bm.blockTypes| < bm.targetCount && bm.preventRepeats then BlockTypesOf(bm.catalogue) else bm.blockTypes
  }

  /** The drawing half of `selectNewTargets`, from a pool ready to draw
      from and no targets. */
  function DrawInto(ready: BlockManager, draws: seq<nat>): (s: Selection)
    requires Valid(ready) && ready.currentTargets == {}
    ensures Valid(s.manager) && SameSettings(ready, s.manager)
    ensures s.manager.processingFound == ready.processingFound
    ensures s.exit != Thrown(NotEnoughBlockTypes)
    ensures s.exit == Normal ==> |s.manager.currentTargets| == ready.targetCount
    ensures s.manager.currentTargets <= Elems(ready.blockTypes)
    ensures !ready.preventRepeats ==> s.manager.blockTypes == ready.blockTypes
    ensures !ready.preventRepeats && |ready.blockTypes| > 0 ==> s.exit != Thrown(EmptyBound)
    ensures ready.preventRepeats ==>
              && Elems(s.manager.blockTypes) == Elems(ready.blockTypes) - s.manager.currentTargets
              && s.manager.currentTargets !! Elems(s.manager.blockTypes)
              && |s.manager.blockTypes| == |ready.blockTypes| - |s.manager.currentTargets|
  {
    var d := DrawTargets(ready.blockTypes, {}, ready.targetCount, ready.preventRepeats, draws);
    DrawWithoutRepeatsMovesPicks(ready.blockTypes, {}, ready.targetCount, draws);
    Selection(ready.(blockTypes := d.pool, currentTargets := d.targets), d.exit)
  }

  /** `selectNewTargets`: clear the targets, reload a pool too small when
      repeats are prevented (or throw when they are not), then draw. */
  function SelectNewTargets(bm: BlockManager, draws: seq<nat>): (s: Selection)
    requires Valid(bm)
    ensures Valid(s.manager) && SameSettings(bm, s.manager)
    ensures s.manager.processingFound == bm.processingFound
    ensures s.exit == Thrown(NotEnoughBlockTypes) <==> !bm.preventRepeats && |bm.blockTypes| < bm.targetCount
    ensures s.exit == Thrown(NotEnoughBlockTypes) ==> s.manager.currentTargets == {}
    ensures s.exit == Normal ==> |s.manager.currentTargets| == bm.targetCount
    ensures s.manager.currentTargets <= Elems(PoolForDraw(bm))
    ensures !bm.preventRepeats ==> s.manager.blockTypes == bm.blockTypes
    ensures !bm.preventRepeats ==> s.exit != Thrown(EmptyBound)
    ensures bm.preventRepeats ==>
              && Elems(s.manager.blockTypes) == Elems(PoolForDraw(bm)) - s.manager.currentTargets
              && s.manager.currentTargets !! Elems(s.manager.blockTypes)
              && |s.manager.blockTypes| == |PoolForDraw(bm)| - |s.manager.currentTargets|
  {
    var cleared := bm.(currentTargets := {});
    if |cleared.blockTypes| < bm.targetCount && !bm.preventRepeats then
      Selection(cleared, Thrown(NotEnoughBlockTypes))
    else if |cleared.blockTypes| < bm.targetCount then
      DrawInto(LoadAllBlockTypes(cleared), draws)
    else
      DrawInto(cleared, draws)
  }

  /** With repeat prevention, a catalogue holding at least `targetCount`
      block kinds and one draw per target, selection always succeeds, and
      the pool shrinks by exactly `targetCount`. */
  lemma SelectionWithoutRepeatsCompletes(bm: BlockManager, draws: seq<nat>)
    requires Valid(bm) && bm.preventRepeats
    requires bm.targetCount <= |BlockTypesOf(bm.catalogue)|
    requires |draws| >= bm.targetCount
    ensures SelectNewTargets(bm, draws).exit == Normal
    ensures |SelectNewTargets(bm, draws).manager.blockTypes| == |PoolForDraw(bm)| - bm.targetCount
  {
    DrawWithoutRepeatsCompletes(PoolForDraw(bm), {}, bm.targetCount, draws);
  }

  /** The pool holds distinct block kinds of the enumeration, so it is no
      longer than the full list of them. */
  lemma PoolWithinBlockTypes(bm: BlockManager)
    requires Valid(bm)
    ensures |bm.blockTypes| <= |BlockTypesOf(bm.catalogue)|
  {
    var all := BlockTypesOf(bm.catalogue);
    DistinctCardinality(bm.blockTypes);
    DistinctCardinality(all);
    assert Elems(bm.blockTypes) <= Elems(all);
    assert |Elems(all) - Elems(bm.blockTypes)| == |Elems(all)| - |Elems(bm.blockTypes)|;
  }

  /** With repeat prevention and fewer block kinds in the whole catalogue
      than `targetCount`, selection does not raise the pool-size exception:
      it takes every block kind as a target and then fails in `nextInt(0)`.
      The targets left behind read as a running game exactly when the
      enumeration has at least one block kind. */
  lemma SelectionFromShortCatalogue(bm: BlockManager, draws: seq<nat>)
    requires Valid(bm) && bm.preventRepeats
    requires |BlockTypesOf(bm.catalogue)| < bm.targetCount
    requires |draws| >= |BlockTypesOf(bm.catalogue)|
    ensures SelectNewTargets(bm, draws).exit == Thrown(EmptyBound)
    ensures SelectNewTargets(bm, draws).manager.currentTargets == Elems(BlockTypesOf(bm.catalogue))
    ensures HasCurrentTargets(SelectNewTargets(bm, draws).manager) <==> |BlockTypesOf(bm.catalogue)| > 0
  {
    PoolWithinBlockTypes(bm);
    DrawFromShortPoolThrows(BlockTypesOf(bm.catalogue), {}, bm.targetCount, draws);
  }

  /** Without repeat prevention the pool is never drained, so a pool of at
      least `targetCount` kinds completes the selection as soon as the
      oracle's first `targetCount` picks are pairwise distinct kinds. */
  lemma SelectionWithRepeatsCompletes(bm: BlockManager, draws: seq<nat>)
    requires Valid(bm) && !bm.preventRepeats
    requires bm.targetCount <= |bm.blockTypes| && |draws| >= bm.targetCount
    requires forall k, j :: 0 <= k < j < bm.targetCount ==>
               bm.blockTypes[draws[k] % |bm.blockTypes|] != bm.blockTypes[draws[j] % |bm.blockTypes|]
    ensures SelectNewTargets(bm, draws).exit == Normal
    ensures |SelectNewTargets(bm, draws).manager.currentTargets| == bm.targetCount
    ensures SelectNewTargets(bm, draws).manager.blockTypes == bm.blockTypes
  {
    DrawWithRepeatsCompletes(bm.blockTypes, {}, bm.targetCount, draws);
  }

  /** A catalogue of exactly `targetCount` block kinds without repeat
      prevention: every completed selection targets all of them. */
  lemma SelectionOfWholePool(bm: BlockManager, draws: seq<nat>)
    requires Valid(bm) && !bm.preventRepeats
    requires |bm.blockTypes| == bm.targetCount
    requires SelectNewTargets(bm, draws).exit == Normal
    ensures SelectNewTargets(bm, draws).manager.currentTargets == Elems(bm.blockTypes)
  {
    var s := SelectNewTargets(bm, draws);
    DistinctCardinality(bm.blockTypes);
    SubsetOfSameSize(s.manager.currentTargets, Elems(bm.blockTypes));
  }

  /** `clearTargets`. */
  function ClearTargets(bm: BlockManager): (r: BlockManager)
    requires Valid(bm)
    ensures Valid(r) && SameSettings(bm, r)
    ensures !HasCurrentTargets(r) && forall m :: !IsTarget(r, m)
    ensures r.blockTypes == bm.blockTypes && r.processingFound == bm.processingFound
  {
    bm.(currentTargets := {})
  }

  /** `hasCurrentTargets`: the game is running. */
  predicate HasCurrentTargets(bm: BlockManager) {
    |bm.currentTargets| != 0
  }

  /** `isTarget`. */
  predicate IsTarget(bm: BlockManager, m: Material) {
    m in bm.currentTargets
  }

  /** The game is running exactly when some block kind is a target. */
  lemma RunningIffSomeTarget(bm: BlockManager)
    ensures HasCurrentTargets(bm) <==> exists m :: IsTarget(bm, m)
  {
    if HasCurrentTargets(bm) {
      var m :| m in bm.currentTargets;
      assert IsTarget(bm, m);
    }
  }

  /** What a reported find led to. */
  datatype Credit =
    | DoubleCountPrevented       // a credit was already in progress: logged and dropped
    | JoinTeamFirst              // the finder has no team: told so, nothing scored
    | Announced(block: Material) // scored, new targets drawn, find broadcast
    | Interrupted(exit: Exit)    // scored, but the new selection did not end normally

  datatype FoundResult = FoundResult(manager: BlockManager, ledger: TeamLedger.Ledger, credit: Credit)

  /** `handleFoundBlock`: guarded by `processingFound`, credit the finder's
      team and draw new targets. The flag is reset on the two normal exits
      only. */
  function HandleFoundBlock(bm: BlockManager, ledger: TeamLedger.Ledger, finder: Player, found: Material, draws: seq<nat>): (r: FoundResult)
    requires Valid(bm) && TeamLedger.Valid(ledger)
    ensures Valid(r.manager) && TeamLedger.Valid(r.ledger) && SameSettings(bm, r.manager)
    ensures bm.processingFound ==> r == FoundResult(bm, ledger, DoubleCountPrevented)
    ensures !bm.processingFound && finder !in ledger.memberships ==> r == FoundResult(bm, ledger, JoinTeamFirst)
    ensures !bm.processingFound && finder in ledger.memberships ==>
              var n := ledger.memberships[finder];
              && r.ledger.teams.Keys == ledger.teams.Keys
              && r.ledger.teams[n].score == Increment(ledger.teams[n].score)
              && (forall o :: o in ledger.teams && o != n ==> r.ledger.teams[o] == ledger.teams[o])
              && r.ledger.memberships == ledger.memberships
              && (r.credit == Announced(found) || r.credit.Interrupted?)
              && (r.credit.Announced? ==> !r.manager.processingFound && |r.manager.currentTargets| == bm.targetCount)
              && (r.credit.Interrupted? ==> r.manager.processingFound)
    ensures !bm.processingFound && finder in ledger.memberships ==>
              var s := SelectNewTargets(bm.(processingFound := true), draws);
              && r.ledger == TeamLedger.AddPoint(ledger, finder).ledger
              && r.manager.currentTargets == s.manager.currentTargets
              && r.manager.blockTypes == s.manager.blockTypes
              && (r.credit.Interrupted? <==> s.exit != Normal)
              && (r.credit.Interrupted? ==> r.credit.exit == s.exit)
  {
    if bm.processingFound then FoundResult(bm, ledger, DoubleCountPrevented)
    else
      var busy := bm.(processingFound := true);
      var credit := TeamLedger.AddPoint(ledger, finder);
      if !credit.ok then FoundResult(busy.(processingFound := false), credit.ledger, JoinTeamFirst)
      else
        var s := SelectNewTargets(busy, draws);
        if s.exit == Normal then FoundResult(s.manager.(processingFound := false), credit.ledger, Announced(found))
        else FoundResult(s.manager, credit.ledger, Interrupted(s.exit))
  }

  /** Single flight: while one credit is in progress, another report changes
      nothing; and a credit interrupted because its selection did not end
      normally (a throw, or the oracle running out) leaves the flag set, so
      every later find is dropped as a double count. */
  lemma InterruptedCreditWedgesGuard(bm: BlockManager, ledger: TeamLedger.Ledger, finder: Player, found: Material, draws: seq<nat>,
                                     later: Player, laterFound: Material, laterDraws: seq<nat>)
    requires Valid(bm) && TeamLedger.Valid(ledger)
    ensures var r := HandleFoundBlock(bm, ledger, finder, found, draws);
            r.credit.Interrupted? ==>
              HandleFoundBlock(r.manager, r.ledger, later, laterFound, laterDraws) == FoundResult(r.manager, r.ledger, DoubleCountPrevented)
  {
  }
}
