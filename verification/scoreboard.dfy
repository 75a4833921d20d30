/** The optional sidebar mirror of team scores
    (game/ScoreboardDisplayManager.java). The host's main scoreboard is a map
    from objective name to that objective's entries (entry name to score). */
module ScoreDisplay {
  import Teams

  const ObjectiveName: string := "blockFinderScoreDisplay"

  /** Displayed scores of one objective, keyed by entry (team) name. */
  type Objective = map<string, int>

  /** `enabled` is fixed at construction; `active` says whether the manager
      holds its objective (`objective != null` in ScoreboardDisplayManager.java). */
  datatype Display = Display(enabled: bool, active: bool, board: map<string, Objective>)

  /** A held objective is registered on the board, and only an enabled
      manager ever holds one. */
  ghost predicate Valid(d: Display) {
    d.active ==> d.enabled && ObjectiveName in d.board
  }

  /** The objectives other than the manager's own are those of `d`. */
  ghost predicate OthersKept(d: Display, r: Display) {
    forall k :: k != ObjectiveName ==> (k in r.board <==> k in d.board) && (k in d.board ==> r.board[k] == d.board[k])
  }

  /** The constructor: no objective held yet. */
  function NewDisplay(enabled: bool, board: map<string, Objective>): (d: Display)
    ensures Valid(d) && !d.active
    ensures d.enabled == enabled && d.board == board
  {
    Display(enabled, false, board)
  }

  /** `start`: when enabled and idle, drop any stale objective of the same
      name and register a fresh, empty one. */
  function Start(d: Display): (r: Display)
    requires Valid(d)
    ensures Valid(r) && r.enabled == d.enabled
    ensures !d.enabled || d.active ==> r == d
    ensures d.enabled ==> r.active
    ensures d.enabled && !d.active ==> r.board[ObjectiveName] == map[] && OthersKept(d, r)
  {
    if !d.enabled || d.active then d
    else
      var unregistered := d.board - {ObjectiveName};
      d.(active := true, board := unregistered[ObjectiveName := map[]])
  }

  /** `stop`: when holding an objective, unregister it. */
  function Stop(d: Display): (r: Display)
    requires Valid(d)
    ensures Valid(r) && r.enabled == d.enabled
    ensures !r.active
    ensures !d.active ==> r == d
    ensures d.active ==> ObjectiveName !in r.board && OthersKept(d, r)
  {
    if !d.enabled || !d.active then d
    else d.(active := false, board := d.board - {ObjectiveName})
  }

  /** `syncScore`: when holding an objective, show the team's score under
      the team's name; every other entry and objective stays. */
  function SyncScore(d: Display, team: Teams.Team): (r: Display)
    requires Valid(d)
    ensures Valid(r) && r.enabled == d.enabled && r.active == d.active
    ensures !d.active ==> r == d
    ensures d.active ==> r.board[ObjectiveName] == d.board[ObjectiveName][team.name := team.score] && OthersKept(d, r)
  {
    if !d.enabled || !d.active then d
    else d.(board := d.board[ObjectiveName := d.board[ObjectiveName][team.name := team.score]])
  }

  /** `syncScore` for every team of a table keyed by team name, in one step;
      `SyncEachIsSyncTeams` shows it equals the one-by-one loop. */
  function SyncTeams(d: Display, teams: map<string, Teams.Team>): (r: Display)
    requires Valid(d)
    ensures Valid(r) && r.enabled == d.enabled && r.active == d.active
    ensures !d.active ==> r == d
    ensures d.active ==> OthersKept(d, r)
    ensures d.active ==> forall n :: n in teams ==> n in r.board[ObjectiveName] && r.board[ObjectiveName][n] == teams[n].score
    ensures d.active ==> forall n :: n !in teams ==>
              && (n in r.board[ObjectiveName] <==> n in d.board[ObjectiveName])
              && (n in d.board[ObjectiveName] ==> r.board[ObjectiveName][n] == d.board[ObjectiveName][n])
  {
    if !d.enabled || !d.active then d
    else
      var shown := map n | n in teams :: teams[n].score as int;
      d.(board := d.board[ObjectiveName := d.board[ObjectiveName] + shown])
  }

  /** `syncScore` applied to each team of a list in turn, as the loops over
      `teamsByName.values()` in TeamManager.java do. */
  function SyncEach(d: Display, ts: seq<Teams.Team>): (r: Display)
    requires Valid(d)
    ensures Valid(r) && r.enabled == d.enabled && r.active == d.active
    ensures !d.active ==> r == d
    ensures d.active ==> OthersKept(d, r)
    decreases |ts|
  {
    if |ts| == 0 then d else SyncEach(SyncScore(d, ts[0]), ts[1..])
  }

  /** The team names of a list. */
  function NamesOf(ts: seq<Teams.Team>): set<string> {
    set i | 0 <= i < |ts| :: ts[i].name
  }

  /** The names of a non-empty list are its head's and its tail's. */
  lemma NamesOfCons(ts: seq<Teams.Team>)
    requires |ts| > 0
    ensures NamesOf(ts) == NamesOf(ts[1..]) + {ts[0].name}
  {
    var rest := ts[1..];
    forall n | n in NamesOf(ts) ensures n in NamesOf(rest) + {ts[0].name} {
      var i :| 0 <= i < |ts| && ts[i].name == n;
      if i > 0 { assert rest[i - 1].name == n; }
    }
    forall n | n in NamesOf(rest) ensures n in NamesOf(ts) {
      var i :| 0 <= i < |rest| && rest[i].name == n;
      assert ts[i + 1].name == n;
    }
  }

  /** Each list entry is the table's team of that name. */
  ghost predicate ListsTable(ts: seq<Teams.Team>, teams: map<string, Teams.Team>) {
    forall i :: 0 <= i < |ts| ==> ts[i].name in teams && teams[ts[i].name] == ts[i]
  }

  /** The scores a table shows under the given names. */
  function ShownScores(teams: map<string, Teams.Team>, names: set<string>): (m: Objective)
    ensures m.Keys == names * teams.Keys
  {
    map n | n in names && n in teams :: teams[n].score as int
  }

  /** Writing one listed team's score, then the others', is writing them all. */
  lemma OneThenRest(obj: Objective, t: Teams.Team, rest: set<string>, teams: map<string, Teams.Team>)
    requires t.name in teams && teams[t.name] == t
    ensures obj[t.name := t.score] + ShownScores(teams, rest) == obj + ShownScores(teams, rest + {t.name})
  {
  }

  /** Syncing a list of the table's teams one by one writes, on top of the
      old entries, each listed name's table score. */
  lemma {:induction false} SyncEachWrites(d: Display, ts: seq<Teams.Team>, teams: map<string, Teams.Team>)
    requires Valid(d) && d.active && ListsTable(ts, teams)
    ensures SyncEach(d, ts) == d.(board := d.board[ObjectiveName := d.board[ObjectiveName] + ShownScores(teams, NamesOf(ts))])
    decreases |ts|
  {
    var obj := d.board[ObjectiveName];
    if |ts| == 0 {
      assert NamesOf(ts) == {};
      assert obj + ShownScores(teams, NamesOf(ts)) == obj;
      assert d.board[ObjectiveName := obj] == d.board;
    } else {
      var d1 := SyncScore(d, ts[0]);
      var rest := ts[1..];
      assert ListsTable(rest, teams) by {
        forall i | 0 <= i < |rest| ensures rest[i].name in teams && teams[rest[i].name] == rest[i] {
          assert rest[i] == ts[i + 1];
        }
      }
      SyncEachWrites(d1, rest, teams);
      NamesOfCons(ts);
      OneThenRest(obj, ts[0], NamesOf(rest), teams);
      assert d1.board[ObjectiveName] == obj[ts[0].name := ts[0].score];
      assert d1.board[ObjectiveName := obj + ShownScores(teams, NamesOf(ts))]
          == d.board[ObjectiveName := obj + ShownScores(teams, NamesOf(ts))];
    }
  }

  /** The loop over every team of the table leaves the same display as
      `SyncTeams`, whatever order the teams come in. */
  lemma SyncEachIsSyncTeams(d: Display, ts: seq<Teams.Team>, teams: map<string, Teams.Team>)
    requires Valid(d) && ListsTable(ts, teams) && NamesOf(ts) == teams.Keys
    ensures SyncEach(d, ts) == SyncTeams(d, teams)
  {
    if d.active {
      SyncEachWrites(d, ts, teams);
      assert ShownScores(teams, NamesOf(ts)) == map n | n in teams :: teams[n].score as int;
    }
  }

  /** Starting an active display changes nothing, so `start` is idempotent. */
  lemma StartIdempotent(d: Display)
    requires Valid(d)
    ensures Start(Start(d)) == Start(d)
  {
  }

  /** Stopping then starting an enabled display yields a fresh, empty objective. */
  lemma StopThenStartIsFresh(d: Display)
    requires Valid(d) && d.enabled
    ensures Start(Stop(d)).active && Start(Stop(d)).board[ObjectiveName] == map[]
  {
  }
}
