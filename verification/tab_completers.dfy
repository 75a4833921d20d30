/** The tab completers of the three commands (the classes under
    tabcompleters/), as pure functions of the typed arguments, the sender's
    operator flag, whether a game runs and the team names in the order
    `getTeamNames` yields them. */

module GameTabCompleter {
  import opened Common
  import opened Plugin
  import GameCommand

  /** `onTabComplete` for `/bfinder`: suggestions for the first argument only. */
  function OnTabComplete(args: seq<string>, isOp: bool, running: bool): (r: seq<string>)
    ensures |args| != 1 ==> r == []
    ensures |args| == 1 ==> |r| >= 2 && r[0] == "help" && r[1] == "targets"
    ensures |args| == 1 && !isOp ==> r == ["help", "targets"]
    ensures |args| == 1 && isOp ==> ("start" in r <==> !running) && ("stop" in r <==> running) && ("skip" in r <==> running)
    ensures |args| == 1 && isOp ==> Distinct(r) && |r| == (if running then 4 else 3)
    ensures |args| == 1 && isOp && running ==> r[2] == "stop"
    ensures !("start" in r && "stop" in r)
  {
    if |args| != 1 then []
    else if !isOp then ["help", "targets"]
    else if running then ["help", "targets", "stop", "skip"]
    else ["help", "targets", "start"]
  }

  /** Every suggestion, run as the command, is neither refused for lack of
      rights or for the game's state nor answered with the usage text. */
  lemma SuggestionsAreAccepted(g: State, sender: Sender, typed: string, draws: seq<nat>)
    requires Valid(g)
    ensures forall s :: s in OnTabComplete([typed], sender.isOp, Running(g)) ==>
              GameCommand.OnCommand(g, sender, [s], draws).reply !in
                {Said(GameUsage), Said(NoPermission), Said(AlreadyRunning), Said(NotRunning)}
  {
  }
}

module TeamsTabCompleter {
  import opened Common
  import opened Plugin
  import TeamLedger
  import TeamsCommand

  /** `onTabComplete` for `/bfteams`. */
  function OnTabComplete(args: seq<string>, teamNames: seq<string>): (r: seq<string>)
    ensures |args| == 1 ==> r == ["list", "join", "leave"]
    ensures |args| == 2 && args[0] == "join" ==> r == teamNames
    ensures forall s :: s in r && s !in ["list", "join", "leave"] ==> s in teamNames
    ensures r != [] <==> |args| == 1 || (|args| == 2 && args[0] == "join" && teamNames != [])
  {
    if |args| == 1 then ["list", "join", "leave"]
    else if |args| == 2 && args[0] == "join" then teamNames
    else []
  }

  /** A team name suggested after `join` is a team a player can join. */
  lemma SuggestedTeamsCanBeJoined(g: State, sender: Sender, typed: string, teamNames: seq<string>)
    requires Valid(g) && sender.player.Some? && Elems(teamNames) == TeamLedger.TeamNames(g.ledger)
    ensures forall s :: s in OnTabComplete(["join", typed], teamNames) ==>
              TeamsCommand.OnCommand(g, sender, ["join", s]).reply == Said(JoinedTeam(s))
  {
  }
}

module ScoresTabCompleter {
  import opened Common
  import opened Plugin
  import TeamLedger
  import ScoresCommand

  /** The completer's answer, or the `ArrayIndexOutOfBoundsException` it
      raises when an operator's request has no argument at all (the host
      always passes the word being typed, so this does not arise there). */
  datatype Completion = Suggest(suggestions: seq<string>) | IndexOutOfBounds

  /** `onTabComplete` for `/bfscores`. */
  function OnTabComplete(args: seq<string>, isOp: bool, teamNames: seq<string>): (r: Completion)
    ensures r.IndexOutOfBounds? <==> |args| == 0 && isOp
    ensures |args| == 0 && !isOp ==> r == Suggest([])
    ensures |args| == 1 ==> r == Suggest(if isOp then ["list", "set"] else ["list"])
    ensures |args| >= 2 && (!isOp || args[0] != "set") ==> r == Suggest([])
    ensures |args| == 2 && isOp && args[0] == "set" ==> r == Suggest(teamNames)
    ensures |args| >= 3 ==> r == Suggest([])
  {
    if |args| == 1 then Suggest(if isOp then ["list", "set"] else ["list"])
    else if !isOp then Suggest([])
    else if |args| == 0 then IndexOutOfBounds
    else if args[0] != "set" then Suggest([])
    else if |args| == 2 then Suggest(teamNames)
    else Suggest([])
  }

  /** A team suggested after an operator's `set` is one whose score the
      command sets, for any non-negative number typed next. */
  lemma SuggestedTeamsCanBeScored(g: State, op: Sender, typed: string, teamNames: seq<string>,
                                  number: string, parse: string -> Option<Int32>)
    requires Valid(g) && op.isOp && Elems(teamNames) == TeamLedger.TeamNames(g.ledger)
    requires parse(number).Some? && parse(number).value >= 0
    ensures var c := OnTabComplete(["set", typed], true, teamNames);
            c.Suggest? && forall s :: s in c.suggestions ==>
              var r := ScoresCommand.OnCommand(g, op, ["set", s, number], parse);
              r.reply == Said(ScoreSet) && r.state.ledger.teams[s].score == parse(number).value
  {
  }
}
