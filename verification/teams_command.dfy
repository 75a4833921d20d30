/** The `/bfteams` command (commands/TeamsCommand.java): list the teams, or,
    for a player, join a team by name or leave the current one. */
module TeamsCommand {
  import opened Common
  import TeamLedger
  import opened Plugin

  /** `handleJoin`: a player joins `name`, moving from any previous team,
      and is told the name of the team they are now on. */
  function HandleJoin(g: State, sender: Sender, name: string): (r: Outcome)
    requires Valid(g)
    ensures Valid(r.state) && r.state.blocks == g.blocks
    ensures sender.player.None? ==> r == Outcome(g, Said(OnlyPlayers))
    ensures sender.player.Some? && name !in g.ledger.teams ==> r == Outcome(g, Said(TeamNotFound))
    ensures sender.player.Some? && name in g.ledger.teams ==>
              var p := sender.player.value;
              && r.reply == Said(JoinedTeam(name))
              && TeamLedger.GetPlayerTeam(r.state.ledger, p).Some?
              && TeamLedger.GetPlayerTeam(r.state.ledger, p).value.name == name
              && r.state.ledger.memberships == g.ledger.memberships[p := name]
              && r.state.ledger == TeamLedger.AddPlayer(g.ledger, p, name).ledger
  {
    match sender.player
    case None => Outcome(g, Said(OnlyPlayers))
    case Some(p) =>
      var u := TeamLedger.AddPlayer(g.ledger, p, name);
      if !u.ok then Outcome(g, Said(TeamNotFound))
      else
        var joined := TeamLedger.GetPlayerTeam(u.ledger, p);
        Outcome(g.(ledger := u.ledger), Said(JoinedTeam(joined.value.name)))
  }

  /** `handleLeave`: a player leaves their team, if they are on one. */
  function HandleLeave(g: State, sender: Sender): (r: Outcome)
    requires Valid(g)
    ensures Valid(r.state) && r.state.blocks == g.blocks
    ensures sender.player.None? ==> r == Outcome(g, Said(OnlyPlayers))
    ensures sender.player.Some? && sender.player.value !in g.ledger.memberships ==> r == Outcome(g, Said(NotOnAnyTeam))
    ensures sender.player.Some? && sender.player.value in g.ledger.memberships ==>
              && r.reply == Said(LeftTeam)
              && TeamLedger.GetPlayerTeam(r.state.ledger, sender.player.value).None?
              && r.state.ledger.memberships == g.ledger.memberships - {sender.player.value}
              && r.state.ledger == TeamLedger.RemovePlayer(g.ledger, sender.player.value).ledger
  {
    match sender.player
    case None => Outcome(g, Said(OnlyPlayers))
    case Some(p) =>
      var u := TeamLedger.RemovePlayer(g.ledger, p);
      if !u.ok then Outcome(g, Said(NotOnAnyTeam))
      else Outcome(g.(ledger := u.ledger), Said(LeftTeam))
  }

  /** `onCommand`: exact argument shapes; anything else shows the usage. */
  function OnCommand(g: State, sender: Sender, args: seq<string>): (r: Outcome)
    requires Valid(g)
    ensures Valid(r.state) && r.state.blocks == g.blocks
    ensures IsListing(args) ==> r == Outcome(g, Said(TeamsList))
    ensures args == ["leave"] ==> r == HandleLeave(g, sender)
    ensures |args| == 2 && args[0] == "join" ==> r == HandleJoin(g, sender, args[1])
    ensures !IsListing(args) && args != ["leave"] && !(|args| == 2 && args[0] == "join") ==> r == Outcome(g, Said(TeamsUsage))
    ensures r.state != g ==> sender.player.Some? && (args == ["leave"] || (|args| == 2 && args[0] == "join"))
  {
    if IsListing(args) then Outcome(g, Said(TeamsList))
    else if |args| == 1 && args[0] == "leave" then HandleLeave(g, sender)
    else if |args| == 2 && args[0] == "join" then HandleJoin(g, sender, args[1])
    else Outcome(g, Said(TeamsUsage))
  }

  /** A player who is on no team can undo a join by leaving. */
  lemma JoinThenLeaveRestores(g: State, sender: Sender, name: string)
    requires Valid(g) && sender.player.Some? && sender.player.value !in g.ledger.memberships
    ensures OnCommand(OnCommand(g, sender, ["join", name]).state, sender, ["leave"]).state == g
  {
    TeamLedger.JoinThenLeave(g.ledger, sender.player.value, name);
    assert ["join", name][0] == "join";
  }
}
