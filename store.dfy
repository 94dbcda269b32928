/**
 * The database as mutable state: one field per table, updated in place by
 * the route handlers. `Snapshot` is the abstract value of the whole database;
 * `Valid` is the schema invariant plus the freshness of the next identifier.
 */
module Store {
  import opened Common
  import opened Schema

  /** Every primary key in use is below `n`, so `n` is a fresh identifier. */
  predicate IdsBelow(t: Tables, n: nat)
  {
    && (forall k :: k in t.users ==> k < n)
    && (forall k :: k in t.players ==> k < n)
    && (forall k :: k in t.teams ==> k < n)
    && (forall k :: k in t.scoreboards ==> k < n)
    && (forall k :: k in t.matches ==> k < n)
  }

  class Db {
    var users: map<Id, User>
    var players: map<Id, Player>
    var teams: map<Id, Team>
    var memberships: seq<Membership>
    var scoreboards: map<Id, Scoreboard>
    var scoreboardTeams: seq<ScoreboardTeam>
    var scorerUsers: seq<ScorerUser>
    var matches: map<Id, Match>
    var participants: seq<Participant>
    var nextId: Id

    function Snapshot(): Tables
      reads this
    {
      Tables(users, players, teams, memberships, scoreboards, scoreboardTeams, scorerUsers, matches, participants)
    }

    ghost predicate Valid()
      reads this
    {
      WellFormed(Snapshot()) && IdsBelow(Snapshot(), nextId)
    }

    /** A freshly migrated, empty database. */
    constructor ()
      ensures Valid() && Snapshot() == EmptyTables()
    {
      users, players, teams, memberships := map[], map[], map[], [];
      scoreboards, scoreboardTeams, scorerUsers := map[], [], [];
      matches, participants := map[], [];
      nextId := 0;
    }

    /** Allocates a primary key no table uses yet. */
    method FreshId() returns (id: Id)
      requires Valid()
      modifies this`nextId
      ensures Valid() && id == old(nextId) && nextId == id + 1
      ensures id !in users && id !in players && id !in teams && id !in scoreboards && id !in matches
    {
      id := nextId;
      nextId := nextId + 1;
    }

    /** Writes a whole new state of every table, as a cascading delete does. */
    method Store(t: Tables)
      modifies this`users, this`players, this`teams, this`memberships, this`scoreboards,
               this`scoreboardTeams, this`scorerUsers, this`matches, this`participants
      ensures Snapshot() == t
    {
      users, players, teams, memberships := t.users, t.players, t.teams, t.memberships;
      scoreboards, scoreboardTeams, scorerUsers := t.scoreboards, t.scoreboardTeams, t.scorerUsers;
      matches, participants := t.matches, t.participants;
    }
  }
}
