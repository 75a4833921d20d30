/** A team of the game (game/Team.java): a name, a colour, a roster of
    players and a score. */
module Teams {
  import opened Common

  datatype Team = Team(name: string, color: Color, members: set<Player>, score: Int32)

  /** `Team.equals`: two teams are the same team when name and colour agree;
      roster and score play no part. */
  predicate SameTeam(a: Team, b: Team) {
    a.name == b.name && a.color == b.color
  }

  /** A freshly configured team. */
  function NewTeam(name: string, color: Color): (t: Team)
    ensures t.name == name && t.color == color
    ensures t.score == 0 && t.members == {}
  {
    Team(name, color, {}, 0)
  }

  /** `addPlayer`: set insertion into the roster. */
  function AddPlayer(t: Team, p: Player): (r: Team)
    ensures p in r.members
    ensures forall q :: q != p ==> (q in r.members <==> q in t.members)
    ensures SameTeam(r, t) && r.score == t.score
  {
    t.(members := t.members + {p})
  }

  /** `removePlayer`: set deletion from the roster. */
  function RemovePlayer(t: Team, p: Player): (r: Team)
    ensures p !in r.members
    ensures forall q :: q != p ==> (q in r.members <==> q in t.members)
    ensures SameTeam(r, t) && r.score == t.score
  {
    t.(members := t.members - {p})
  }

  /** `clearMembers`: the roster becomes empty, the score stays. */
  function ClearMembers(t: Team): (r: Team)
    ensures forall q :: q !in r.members
    ensures SameTeam(r, t) && r.score == t.score
  {
    t.(members := {})
  }

  /** `addPoint`: the score goes up by one, modulo 2^32 as Java's `int` does. */
  function AddPoint(t: Team): (r: Team)
    ensures (r.score - t.score) % 0x1_0000_0000 == 1
    ensures t.score < IntMax ==> r.score == t.score + 1
    ensures SameTeam(r, t) && r.members == t.members
  {
    t.(score := Increment(t.score))
  }

  /** `setScore`: the score becomes `n`, whatever its sign. */
  function SetScore(t: Team, n: Int32): (r: Team)
    ensures r.score == n
    ensures SameTeam(r, t) && r.members == t.members
  {
    t.(score := n)
  }

  /** `clearScore`: the score becomes zero. */
  function ClearScore(t: Team): (r: Team)
    ensures r.score == 0
    ensures SameTeam(r, t) && r.members == t.members
  {
    t.(score := 0)
  }

  /** Adding or removing a player twice is the same as doing it once. */
  lemma RosterOpsIdempotent(t: Team, p: Player)
    ensures AddPlayer(AddPlayer(t, p), p) == AddPlayer(t, p)
    ensures RemovePlayer(RemovePlayer(t, p), p) == RemovePlayer(t, p)
  {
  }

  /** Removing a player who was just added restores the roster they were
      absent from. */
  lemma AddThenRemove(t: Team, p: Player)
    requires p !in t.members
    ensures RemovePlayer(AddPlayer(t, p), p) == t
  {
  }

  /** `equals` is an equivalence relation. */
  lemma SameTeamIsEquivalence(a: Team, b: Team, c: Team)
    ensures SameTeam(a, a)
    ensures SameTeam(a, b) ==> SameTeam(b, a)
    ensures SameTeam(a, b) && SameTeam(b, c) ==> SameTeam(a, c)
  {
  }
}
