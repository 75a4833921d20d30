/** The team ledger (game/TeamManager.java): the table of teams by name, the
    map from player to team, and the score display the ledger keeps in step. */
module TeamLedger {
  import opened Common
  import Teams
  import ScoreDisplay

  /** One entry of the configured team list, its colour already parsed. */
  datatype TeamSpec = TeamSpec(name: string, color: Color)

  /** `memberships` names the player's team; a team's name is its key in `teams`. */
  datatype Ledger = Ledger(
    teams: map<string, Teams.Team>,
    memberships: map<Player, string>,
    display: ScoreDisplay.Display)

  /** The ledger after an operation, and the operation's boolean answer. */
  datatype Update = Update(ledger: Ledger, ok: bool)

  /** Every team is filed under its own name, and rosters and the membership
      map agree: `p` is on the roster of `n` exactly when `p` is mapped to `n`. */
  ghost predicate Valid(l: Ledger) {
    && ScoreDisplay.Valid(l.display)
    && (forall n :: n in l.teams ==> l.teams[n].name == n)
    && (forall p :: p in l.memberships ==> l.memberships[p] in l.teams)
    && (forall n :: n in l.teams ==> l.teams[n].members == Mapped(l.memberships, n))
  }

  /** The players `memberships` maps to team `n`. */
  function Mapped(memberships: map<Player, string>, n: string): set<Player> {
    set p | p in memberships && memberships[p] == n
  }

  /** Team names and colours, hence `equals`, of every team are those of `l`. */
  ghost predicate IdentitiesKept(l: Ledger, r: Ledger) {
    && r.teams.Keys == l.teams.Keys
    && forall n :: n in l.teams ==> Teams.SameTeam(r.teams[n], l.teams[n])
  }

  /** A usable team name has no space character (other white space passes). */
  predicate AcceptedName(name: string) {
    ' ' !in name
  }

  /** The constructor's loop over the configured team list: names holding a
      space are skipped, the rest inserted, a later entry replacing an
      earlier one of the same name. */
  function TeamTable(specs: seq<TeamSpec>): (table: map<string, Teams.Team>)
    ensures forall n :: n in table ==> AcceptedName(n)
    ensures forall n :: n in table ==> table[n].name == n && table[n].score == 0 && table[n].members == {}
    ensures forall i :: 0 <= i < |specs| && AcceptedName(specs[i].name) ==> specs[i].name in table
  {
    if |specs| == 0 then map[]
    else
      var table := TeamTable(specs[..|specs| - 1]);
      var spec := specs[|specs| - 1];
      assert forall i :: 0 <= i < |specs| - 1 ==> specs[..|specs| - 1][i] == specs[i];
      if !AcceptedName(spec.name) then table
      else table[spec.name := Teams.NewTeam(spec.name, spec.color)]
  }

  /** A name is in the table only if some entry of the list carries it, and
      the team's colour is the colour of the LAST entry with that name. */
  lemma {:induction false} TeamTableLastWins(specs: seq<TeamSpec>, n: string)
    requires n in TeamTable(specs)
    ensures exists i :: 0 <= i < |specs| && specs[i].name == n
    ensures forall i :: 0 <= i < |specs| && specs[i].name == n && (forall j :: i < j < |specs| ==> specs[j].name != n)
                      ==> TeamTable(specs)[n].color == specs[i].color
  {
    var last := |specs| - 1;
    var front := specs[..last];
    assert forall i :: 0 <= i < last ==> front[i] == specs[i];
    if specs[last].name == n {
      assert AcceptedName(n);
    } else {
      TeamTableLastWins(front, n);
      var k :| 0 <= k < |front| && front[k].name == n;
      assert specs[k].name == n;
    }
  }

  /** The constructor: the configured teams, nobody on any team, and an
      idle score display. */
  function NewLedger(specs: seq<TeamSpec>, useSidebar: bool, board: map<string, ScoreDisplay.Objective>): (l: Ledger)
    ensures Valid(l)
    ensures l.teams == TeamTable(specs) && l.memberships == map[]
    ensures !l.display.active && l.display.enabled == useSidebar && l.display.board == board
  {
    Ledger(TeamTable(specs), map[], ScoreDisplay.NewDisplay(useSidebar, board))
  }

  /** `getTeamNames`. */
  function TeamNames(l: Ledger): set<string> {
    l.teams.Keys
  }

  /** `getPlayerTeam`: the player's team, or nothing (`null` in TeamManager.java). */
  function GetPlayerTeam(l: Ledger, p: Player): (t: Option<Teams.Team>)
    requires Valid(l)
    ensures t.Some? <==> p in l.memberships
    ensures t.Some? ==> t.value.name in l.teams && t.value == l.teams[t.value.name] && p in t.value.members
    ensures t.None? ==> forall n :: n in l.teams ==> p !in l.teams[n].members
  {
    if p in l.memberships then Some(l.teams[l.memberships[p]]) else None
  }

  /** `addPlayer`: join a known team, leaving the previous one first. */
  function AddPlayer(l: Ledger, p: Player, name: string): (u: Update)
    requires Valid(l)
    ensures Valid(u.ledger)
    ensures u.ok <==> name in l.teams
    ensures !u.ok ==> u.ledger == l
    ensures u.ok ==> u.ledger.memberships == l.memberships[p := name]
    ensures u.ledger.teams.Keys == l.teams.Keys && u.ledger.display == l.display
    ensures u.ok ==> forall n :: n in l.teams ==>
              u.ledger.teams[n] == l.teams[n].(members := if n == name then l.teams[n].members + {p} else l.teams[n].members - {p})
  {
    if name !in l.teams then Update(l, false)
    else
      // leaving the old roster is `removePlayer`, except that the map entry is overwritten below
      var left := RemovePlayer(l, p).ledger;
      RemoveThenUpdate(l.memberships, p, name);
      Update(JoinAsTeamless(left, p, name), true)
  }

  /** The second half of `addPlayer`: a player on no team joins `name`. */
  function JoinAsTeamless(l: Ledger, p: Player, name: string): (r: Ledger)
    requires Valid(l) && name in l.teams && p !in l.memberships
    ensures Valid(r)
    ensures r.memberships == l.memberships[p := name]
    ensures r.teams.Keys == l.teams.Keys && r.display == l.display
    ensures forall n :: n in l.teams ==> r.teams[n] == if n == name then Teams.AddPlayer(l.teams[n], p) else l.teams[n]
  {
    l.(teams := l.teams[name := Teams.AddPlayer(l.teams[name], p)], memberships := l.memberships[p := name])
  }

  /** `removePlayer`: leave the current team, if any. Every roster ends up
      without the player, since only the player's own team listed them. */
  function RemovePlayer(l: Ledger, p: Player): (u: Update)
    requires Valid(l)
    ensures Valid(u.ledger)
    ensures u.ok <==> p in l.memberships
    ensures !u.ok ==> u.ledger == l
    ensures u.ledger.memberships == l.memberships - {p}
    ensures u.ledger.teams.Keys == l.teams.Keys && u.ledger.display == l.display
    ensures forall n :: n in l.teams ==> u.ledger.teams[n] == l.teams[n].(members := l.teams[n].members - {p})
  {
    if p !in l.memberships then Update(l, false)
    else
      var team := l.memberships[p];
      var teams := l.teams[team := Teams.RemovePlayer(l.teams[team], p)];
      Update(l.(teams := teams, memberships := l.memberships - {p}), true)
  }

  /** `addPoint`: one more point for the player's team, shown on the display. */
  function AddPoint(l: Ledger, p: Player): (u: Update)
    requires Valid(l)
    ensures Valid(u.ledger)
    ensures u.ok <==> p in l.memberships
    ensures !u.ok ==> u.ledger == l
    ensures u.ledger.memberships == l.memberships && IdentitiesKept(l, u.ledger)
    ensures u.ok ==> var n := l.memberships[p];
                     && u.ledger.teams[n].score == Increment(l.teams[n].score)
                     && u.ledger.teams[n].members == l.teams[n].members
                     && u.ledger.display == ScoreDisplay.SyncScore(l.display, u.ledger.teams[n])
    ensures u.ok ==> forall n :: n in l.teams && n != l.memberships[p] ==> u.ledger.teams[n] == l.teams[n]
  {
    if p !in l.memberships then Update(l, false)
    else
      var name := l.memberships[p];
      var team := Teams.AddPoint(l.teams[name]);
      Update(l.(teams := l.teams[name := team], display := ScoreDisplay.SyncScore(l.display, team)), true)
  }

  /** `setScore`: overwrite a known team's score, with no check of its sign. */
  function SetScore(l: Ledger, name: string, newScore: Int32): (u: Update)
    requires Valid(l)
    ensures Valid(u.ledger)
    ensures u.ok <==> name in l.teams
    ensures !u.ok ==> u.ledger == l
    ensures u.ledger.memberships == l.memberships && IdentitiesKept(l, u.ledger)
    ensures u.ok ==> && u.ledger.teams[name].score == newScore
                     && u.ledger.teams[name].members == l.teams[name].members
                     && u.ledger.display == ScoreDisplay.SyncScore(l.display, u.ledger.teams[name])
    ensures forall n :: n in l.teams && n != name ==> u.ledger.teams[n] == l.teams[n]
  {
    if name !in l.teams then Update(l, false)
    else
      var team := Teams.SetScore(l.teams[name], newScore);
      Update(l.(teams := l.teams[name := team], display := ScoreDisplay.SyncScore(l.display, team)), true)
  }

  /** `resetScores`: every score becomes zero and is shown; rosters stay. */
  function ResetScores(l: Ledger): (r: Ledger)
    requires Valid(l)
    ensures Valid(r)
    ensures r.memberships == l.memberships && IdentitiesKept(l, r)
    ensures forall n :: n in r.teams ==> r.teams[n].score == 0 && r.teams[n].members == l.teams[n].members
    ensures r.display == ScoreDisplay.SyncTeams(l.display, r.teams)
  {
    var teams := map n | n in l.teams :: Teams.ClearScore(l.teams[n]);
    l.(teams := teams, display := ScoreDisplay.SyncTeams(l.display, teams))
  }

  /** `resetTeams`: every team is emptied and zeroed (and shown so), then the
      table and the membership map are cleared. */
  function ResetTeams(l: Ledger): (r: Ledger)
    requires Valid(l)
    ensures Valid(r)
    ensures r.teams == map[] && r.memberships == map[]
    ensures r.display.active ==> forall n :: n in l.teams ==>
              var shown := r.display.board[ScoreDisplay.ObjectiveName]; n in shown && shown[n] == 0
    ensures r.display.enabled == l.display.enabled && r.display.active == l.display.active
    ensures ScoreDisplay.OthersKept(l.display, r.display)
    ensures r.display.active ==> forall n :: n !in l.teams ==>
              var was := l.display.board[ScoreDisplay.ObjectiveName];
              var shown := r.display.board[ScoreDisplay.ObjectiveName];
              && (n in shown <==> n in was)
              && (n in was ==> shown[n] == was[n])
    ensures !l.display.active ==> r.display == l.display
  {
    var cleared := map n | n in l.teams :: Teams.SetScore(Teams.ClearMembers(l.teams[n]), 0);
    Ledger(map[], map[], ScoreDisplay.SyncTeams(l.display, cleared))
  }

  /** `startScoreboardDisplay`: start the display, then show every score. */
  function StartScoreboardDisplay(l: Ledger): (r: Ledger)
    requires Valid(l)
    ensures Valid(r)
    ensures r.teams == l.teams && r.memberships == l.memberships
    ensures r.display.active <==> l.display.enabled
    ensures r.display.enabled == l.display.enabled
    ensures !l.display.enabled ==> r.display == l.display
    ensures ScoreDisplay.OthersKept(l.display, r.display)
    ensures r.display.active ==> forall n :: n in l.teams ==>
              var shown := r.display.board[ScoreDisplay.ObjectiveName]; n in shown && shown[n] == l.teams[n].score
    ensures l.display.enabled && !l.display.active ==> r.display.board[ScoreDisplay.ObjectiveName].Keys == l.teams.Keys
    ensures l.display.active ==> forall n :: n !in l.teams ==>
              var was := l.display.board[ScoreDisplay.ObjectiveName];
              var shown := r.display.board[ScoreDisplay.ObjectiveName];
              && (n in shown <==> n in was)
              && (n in was ==> shown[n] == was[n])
  {
    l.(display := ScoreDisplay.SyncTeams(ScoreDisplay.Start(l.display), l.teams))
  }

  /** `stopScoreboardDisplay`. */
  function StopScoreboardDisplay(l: Ledger): (r: Ledger)
    requires Valid(l)
    ensures Valid(r)
    ensures r.teams == l.teams && r.memberships == l.memberships
    ensures !r.display.active && r.display.enabled == l.display.enabled
    ensures !l.display.active ==> r.display == l.display
    ensures l.display.active ==> ScoreDisplay.ObjectiveName !in r.display.board && ScoreDisplay.OthersKept(l.display, r.display)
  {
    l.(display := ScoreDisplay.Stop(l.display))
  }

  /** Joining one team and then another leaves the player on the second only. */
  lemma JoinTwice(l: Ledger, p: Player, first: string, second: string)
    requires Valid(l) && first in l.teams && second in l.teams
    ensures var u := AddPlayer(AddPlayer(l, p, first).ledger, p, second).ledger;
            && u.memberships[p] == second
            && forall n :: n in u.teams ==> (p in u.teams[n].members <==> n == second)
  {
  }

  /** Joining a team and leaving again restores a teamless player's ledger. */
  lemma JoinThenLeave(l: Ledger, p: Player, name: string)
    requires Valid(l) && p !in l.memberships
    ensures RemovePlayer(AddPlayer(l, p, name).ledger, p).ledger == l
  {
    if name in l.teams {
      var left := RemovePlayer(AddPlayer(l, p, name).ledger, p).ledger;
      UpdateThenRemove(l.memberships, p, name);
      // both ledgers are valid with one membership map, so their rosters agree
      forall n | n in l.teams
        ensures left.teams[n] == l.teams[n]
      {
        assert left.teams[n].members == Mapped(l.memberships, n) == l.teams[n].members;
      }
    }
  }

  /** Points go to the player's current team: a fresh ledger where `p` joins
      `name` and scores twice shows two points for `name`. */
  lemma TwoPointsForJoinedTeam(l: Ledger, p: Player, name: string)
    requires Valid(l) && name in l.teams && l.teams[name].score == 0
    ensures var joined := AddPlayer(l, p, name).ledger;
            var once := AddPoint(joined, p).ledger;
            AddPoint(once, p).ledger.teams[name].score == 2
  {
  }
}
