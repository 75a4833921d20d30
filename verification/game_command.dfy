/** The `/bfinder` command (commands/GameCommand.java): list the targets,
    start, stop or skip a round, or show help. Starting, stopping and
    skipping need operator rights and the right game state. */
module GameCommand {
  import opened Common
  import Blocks
  import TeamLedger
  import opened Plugin
  import BlockFindListener

  /** `handleTargetInfo`: report the targets, or that there are none. */
  function TargetInfo(g: State): (r: Outcome)
    ensures r.state == g
    ensures r.reply == Said(TargetList) <==> Running(g)
    ensures r.reply == Said(NoActiveTargets) <==> !Running(g)
  {
    Outcome(g, Said(if Blocks.HasCurrentTargets(g.blocks) then TargetList else NoActiveTargets))
  }

  /** `handleStart`: for an operator while no game runs, start the score
      display, draw the first targets and announce the game. A selection
      that throws cuts the command short before the announcement. */
  function HandleStart(g: State, sender: Sender, draws: seq<nat>): (r: Outcome)
    requires Valid(g)
    ensures Valid(r.state)
    ensures !sender.isOp ==> r == Outcome(g, Said(NoPermission))
    ensures sender.isOp && Running(g) ==> r == Outcome(g, Said(AlreadyRunning))
    ensures sender.isOp && !Running(g) ==>
              && r.state.ledger.teams == g.ledger.teams && r.state.ledger.memberships == g.ledger.memberships
              && (r.state.ledger.display.active <==> g.ledger.display.enabled)
              && r.state.ledger == TeamLedger.StartScoreboardDisplay(g.ledger)
              && r.state.blocks == Blocks.SelectNewTargets(g.blocks, draws).manager
              && (r.reply == Said(GameStarted) <==> Blocks.SelectNewTargets(g.blocks, draws).exit == Blocks.Normal)
              && (r.reply == Said(GameStarted) ==> Running(r.state) && |r.state.blocks.currentTargets| == g.blocks.targetCount)
              && (r.reply != Said(GameStarted) ==> r.reply == Interrupted(Blocks.SelectNewTargets(g.blocks, draws).exit))
  {
    if !sender.isOp then Outcome(g, Said(NoPermission))
    else if Blocks.HasCurrentTargets(g.blocks) then Outcome(g, Said(AlreadyRunning))
    else
      var ledger := TeamLedger.StartScoreboardDisplay(g.ledger);
      var s := Blocks.SelectNewTargets(g.blocks, draws);
      var reply := if s.exit == Blocks.Normal then Said(GameStarted) else Interrupted(s.exit);
      Outcome(State(s.manager, ledger), reply)
  }

  /** `handleStop`: for an operator while a game runs, stop the display,
      clear the targets, announce the final scores, then zero every score. */
  function HandleStop(g: State, sender: Sender): (r: Outcome)
    requires Valid(g)
    ensures Valid(r.state)
    ensures !sender.isOp ==> r == Outcome(g, Said(NoPermission))
    ensures sender.isOp && !Running(g) ==> r == Outcome(g, Said(NotRunning))
    ensures sender.isOp && Running(g) ==>
              && r.reply == Said(GameStopped(Scores(g.ledger)))
              && !Running(r.state)
              && r.state.blocks.blockTypes == g.blocks.blockTypes
              && !r.state.ledger.display.active
              && r.state.ledger.memberships == g.ledger.memberships
              && TeamLedger.IdentitiesKept(g.ledger, r.state.ledger)
              && (forall n :: n in r.state.ledger.teams ==>
                    r.state.ledger.teams[n].score == 0 && r.state.ledger.teams[n].members == g.ledger.teams[n].members)
              && r.state.blocks == Blocks.ClearTargets(g.blocks)
              && r.state.ledger == TeamLedger.ResetScores(TeamLedger.StopScoreboardDisplay(g.ledger))
  {
    if !sender.isOp then Outcome(g, Said(NoPermission))
    else if !Blocks.HasCurrentTargets(g.blocks) then Outcome(g, Said(NotRunning))
    else
      var stopped := TeamLedger.StopScoreboardDisplay(g.ledger);
      var blocks := Blocks.ClearTargets(g.blocks);
      // the announcement is built before the scores are reset
      var reply := Said(GameStopped(Scores(stopped)));
      Outcome(State(blocks, TeamLedger.ResetScores(stopped)), reply)
  }

  /** `handleSkip`: for an operator while a game runs, draw new targets and
      announce the skipped round; the teams are untouched. */
  function HandleSkip(g: State, sender: Sender, draws: seq<nat>): (r: Outcome)
    requires Valid(g)
    ensures Valid(r.state)
    ensures r.state.ledger == g.ledger
    ensures !sender.isOp ==> r == Outcome(g, Said(NoPermission))
    ensures sender.isOp && !Running(g) ==> r == Outcome(g, Said(NotRunning))
    ensures sender.isOp && Running(g) ==>
              && r.state.blocks == Blocks.SelectNewTargets(g.blocks, draws).manager
              && (r.reply == Said(RoundSkipped) <==> Blocks.SelectNewTargets(g.blocks, draws).exit == Blocks.Normal)
              && (r.reply == Said(RoundSkipped) ==> Running(r.state) && |r.state.blocks.currentTargets| == g.blocks.targetCount)
              && (r.reply != Said(RoundSkipped) ==> r.reply == Interrupted(Blocks.SelectNewTargets(g.blocks, draws).exit))
  {
    if !sender.isOp then Outcome(g, Said(NoPermission))
    else if !Blocks.HasCurrentTargets(g.blocks) then Outcome(g, Said(NotRunning))
    else
      var s := Blocks.SelectNewTargets(g.blocks, draws);
      Outcome(g.(blocks := s.manager), if s.exit == Blocks.Normal then Said(RoundSkipped) else Interrupted(s.exit))
  }

  /** The sub-commands that may change the game state. */
  predicate Controls(args: seq<string>) {
    |args| > 0 && (args[0] == "start" || args[0] == "stop" || args[0] == "skip")
  }

  /** `onCommand`: dispatch on the first argument; later arguments are ignored. */
  function OnCommand(g: State, sender: Sender, args: seq<string>, draws: seq<nat>): (r: Outcome)
    requires Valid(g)
    ensures Valid(r.state)
    ensures |args| == 0 || args[0] == "targets" ==> r == TargetInfo(g)
    ensures |args| > 0 && args[0] == "start" ==> r == HandleStart(g, sender, draws)
    ensures |args| > 0 && args[0] == "stop" ==> r == HandleStop(g, sender)
    ensures |args| > 0 && args[0] == "skip" ==> r == HandleSkip(g, sender, draws)
    ensures |args| > 0 && args[0] == "help" ==> r == Outcome(g, Said(HelpText))
    ensures |args| > 0 && args[0] !in {"targets", "start", "stop", "skip", "help"} ==> r == Outcome(g, Said(GameUsage))
    ensures r.state != g ==> sender.isOp && Controls(args)
  {
    if |args| == 0 then TargetInfo(g)
    else match args[0]
      case "targets" => TargetInfo(g)
      case "start" => HandleStart(g, sender, draws)
      case "stop" => HandleStop(g, sender)
      case "skip" => HandleSkip(g, sender, draws)
      case "help" => Outcome(g, Said(HelpText))
      case _ => Outcome(g, Said(GameUsage))
  }

  /** A stopped game can be started again: after a completed start and a
      stop by an operator, the game is idle with all scores at zero, and
      the next start is not refused as already running. */
  lemma StartStopStart(g: State, op: Sender, draws: seq<nat>, again: seq<nat>)
    requires Valid(g) && op.isOp && !Running(g)
    requires Blocks.SelectNewTargets(g.blocks, draws).exit == Blocks.Normal
    ensures HandleStart(g, op, draws).reply == Said(GameStarted)
    ensures var stopped := HandleStop(HandleStart(g, op, draws).state, op).state;
            && !Running(stopped)
            && (forall n :: n in stopped.ledger.teams ==> stopped.ledger.teams[n].score == 0)
            && HandleStart(stopped, op, again).reply != Said(AlreadyRunning)
  {
  }

  /** Stopping twice: the second stop is refused and changes nothing. */
  lemma StopTwice(g: State, op: Sender)
    requires Valid(g) && op.isOp
    ensures var once := HandleStop(g, op).state;
            HandleStop(once, op) == Outcome(once, Said(NotRunning))
  {
  }

  /** Once a game is stopped, sneaking over any blocks credits nothing. */
  lemma NoCreditAfterStop(g: State, op: Sender, finder: Player, column: BlockFindListener.Column, draws: seq<nat>)
    requires Valid(g) && op.isOp
    ensures BlockFindListener.OnPlayerToggleSneak(HandleStop(g, op).state, finder, column, draws).Ignored?
  {
  }
}
