/** The plugin's game state as the commands and the listener see it: the
    block manager and the team ledger, plus who is asking and what they are
    told. Message texts are not modelled, only which message is sent. */
module Plugin {
  import opened Common
  import Blocks
  import TeamLedger

  datatype State = State(blocks: Blocks.BlockManager, ledger: TeamLedger.Ledger)

  ghost predicate Valid(g: State) {
    Blocks.Valid(g.blocks) && TeamLedger.Valid(g.ledger)
  }

  /** The game is running when targets exist. */
  predicate Running(g: State) {
    Blocks.HasCurrentTargets(g.blocks)
  }

  /** Every team's score by team name, as the score listings show them. */
  function Scores(l: TeamLedger.Ledger): (m: map<string, int>)
    ensures m.Keys == l.teams.Keys
    ensures forall n :: n in m ==> m[n] == l.teams[n].score
  {
    map n | n in l.teams :: l.teams[n].score
  }

  /** A command sender: a player (with an identity) or another sender such
      as the console, with or without operator rights. */
  datatype Sender = Sender(player: Option<Player>, isOp: bool)

  /** Which message a command sends, to the sender or, for the game's
      announcements, to the whole server. */
  datatype Message =
    | NoActiveTargets | TargetList | HelpText | GameUsage
    | NoPermission | AlreadyRunning | NotRunning
    | GameStarted | GameStopped(finalScores: map<string, int>) | RoundSkipped
    | ScoresList(scores: map<string, int>) | ScoresUsage | InvalidScore | NegativeScore | ScoreSet
    | TeamsList | TeamsUsage | OnlyPlayers | TeamNotFound | JoinedTeam(team: string) | NotOnAnyTeam | LeftTeam

  /** A command either sends its message or is cut short by an exception of
      the target selection (the oracle running dry is reported the same way). */
  datatype Reply = Said(message: Message) | Interrupted(exit: Blocks.Exit)

  datatype Outcome = Outcome(state: State, reply: Reply)

  /** The arguments of `/bfscores` and `/bfteams` that only list: none, or
      `list` alone. */
  predicate IsListing(args: seq<string>) {
    |args| == 0 || (|args| == 1 && args[0] == "list")
  }
}
