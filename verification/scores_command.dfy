/** The `/bfscores` command (commands/ScoresCommand.java): list the scores,
    or, for an operator, set one team's score to a non-negative integer.
    `Integer.parseInt` is the parameter `parse`: it yields the parsed value
    or nothing where ScoresCommand.java catches a `NumberFormatException`. */
module ScoresCommand {
  import opened Common
  import TeamLedger
  import opened Plugin

  /** `onCommand`. The checks run in the order ScoresCommand.java makes them: listing, the
      sub-command name, operator rights, the argument count, the number,
      its sign, and finally the team. */
  function OnCommand(g: State, sender: Sender, args: seq<string>, parse: string -> Option<Int32>): (r: Outcome)
    requires Valid(g)
    ensures Valid(r.state) && r.state.blocks == g.blocks
    ensures r.state.ledger.teams.Keys == g.ledger.teams.Keys && r.state.ledger.memberships == g.ledger.memberships
    ensures IsListing(args) ==> r == Outcome(g, Said(ScoresList(Scores(g.ledger))))
    ensures !IsListing(args) && args[0] != "set" ==> r == Outcome(g, Said(ScoresUsage))
    ensures !IsListing(args) && args[0] == "set" && !sender.isOp ==> r == Outcome(g, Said(NoPermission))
    ensures !IsListing(args) && args[0] == "set" && sender.isOp && |args| != 3 ==> r == Outcome(g, Said(ScoresUsage))
    ensures !IsListing(args) && args[0] == "set" && sender.isOp && |args| == 3 ==>
              match parse(args[2])
              case None => r == Outcome(g, Said(InvalidScore))
              case Some(n) =>
                if n < 0 then r == Outcome(g, Said(NegativeScore))
                else if args[1] !in g.ledger.teams then r == Outcome(g, Said(TeamNotFound))
                else && r.reply == Said(ScoreSet)
                     && r.state.ledger.teams[args[1]].score == n
                     && (forall o :: o in g.ledger.teams && o != args[1] ==> r.state.ledger.teams[o] == g.ledger.teams[o])
                     && r.state.ledger == TeamLedger.SetScore(g.ledger, args[1], n).ledger
    ensures r.state != g ==>
              && sender.isOp && |args| == 3 && args[0] == "set" && args[1] in g.ledger.teams
              && parse(args[2]).Some? && parse(args[2]).value >= 0
              && r.state.ledger.teams[args[1]].score == parse(args[2]).value
  {
    if IsListing(args) then Outcome(g, Said(ScoresList(Scores(g.ledger))))
    else if args[0] != "set" then Outcome(g, Said(ScoresUsage))
    else if !sender.isOp then Outcome(g, Said(NoPermission))
    else if |args| != 3 then Outcome(g, Said(ScoresUsage))
    else match parse(args[2])
      case None => Outcome(g, Said(InvalidScore))
      case Some(n) =>
        if n < 0 then Outcome(g, Said(NegativeScore))
        else
          var u := TeamLedger.SetScore(g.ledger, args[1], n);
          if !u.ok then Outcome(g, Said(TeamNotFound))
          else Outcome(g.(ledger := u.ledger), Said(ScoreSet))
  }

  /** No sequence of score commands can make a score negative when none was:
      the sign check makes every score the command writes non-negative. */
  lemma ScoresStayNonNegative(g: State, sender: Sender, args: seq<string>, parse: string -> Option<Int32>)
    requires Valid(g)
    requires forall n :: n in g.ledger.teams ==> g.ledger.teams[n].score >= 0
    ensures var r := OnCommand(g, sender, args, parse).state;
            forall n :: n in r.ledger.teams ==> r.ledger.teams[n].score >= 0
  {
  }
}
