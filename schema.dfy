/**
 * The persistent data of the application, as the Sequelize models declare
 * it: one datatype per table row, the enumerations, the column defaults and
 * validations, the unique indexes and foreign keys (as the invariant
 * `WellFormed`), and the `ON DELETE CASCADE` rules (as functions that remove
 * a row together with every row that depends on it).
 */
module Schema {
  import opened Common
  import opened Seqs
  import opened Keyed

  datatype MatchStatus = Scheduled | Completed | Cancelled
  datatype Result = Win | Loss
  datatype ScoreboardStatus = Active | Inactive

  function MatchStatusName(s: MatchStatus): string
  {
    match s
    case Scheduled => "scheduled"
    case Completed => "completed"
    case Cancelled => "cancelled"
  }

  /** The database accepts exactly the three enumeration values for `matches.status`. */
  function ParseMatchStatus(s: string): (r: Option<MatchStatus>)
    ensures r.Some? <==> s == "scheduled" || s == "completed" || s == "cancelled"
    ensures r.Some? ==> MatchStatusName(r.value) == s
  {
    if s == "scheduled" then Some(Scheduled)
    else if s == "completed" then Some(Completed)
    else if s == "cancelled" then Some(Cancelled)
    else None
  }

  function ResultName(r: Result): string
  {
    if r == Win then "win" else "loss"
  }

  /** `["win", "loss"].includes(result)`, which is also the column's enumeration. */
  function ParseResult(s: string): (r: Option<Result>)
    ensures r.Some? <==> s == "win" || s == "loss"
    ensures r.Some? ==> ResultName(r.value) == s
  {
    if s == "win" then Some(Win) else if s == "loss" then Some(Loss) else None
  }

  function ScoreboardStatusName(s: ScoreboardStatus): string
  {
    if s == Active then "active" else "inactive"
  }

  function ParseScoreboardStatus(s: string): (r: Option<ScoreboardStatus>)
    ensures r.Some? <==> s == "active" || s == "inactive"
    ensures r.Some? ==> ScoreboardStatusName(r.value) == s
  {
    if s == "active" then Some(Active) else if s == "inactive" then Some(Inactive) else None
  }

  /** Every enumeration value reads back as itself: the names are distinct and accepted. */
  lemma EnumRoundTrips(m: MatchStatus, r: Result, s: ScoreboardStatus)
    ensures ParseMatchStatus(MatchStatusName(m)) == Some(m)
    ensures ParseResult(ResultName(r)) == Some(r)
    ensures ParseScoreboardStatus(ScoreboardStatusName(s)) == Some(s)
  {
  }

  predicate SlugChar(c: char)
  {
    ('a' <= c <= 'z') || ('A' <= c <= 'Z') || ('0' <= c <= '9') || c == '-'
  }

  /** The validation `/^[a-z0-9-]+$/i` on `scoreboards.publicSlug`. */
  predicate IsSlug(s: string)
  {
    |s| > 0 && forall i :: 0 <= i < |s| ==> SlugChar(s[i])
  }

  datatype User = User(email: string, password: string, name: Option<string>, role: string)
  datatype Player = Player(name: string, photo: Option<string>)
  datatype Team = Team(name: string, logo: Option<string>)

  /** A row of `team_players`; `removalRequested` marks a pending removal request. */
  datatype Membership = Membership(teamId: Id, playerId: Id, removalRequested: bool)

  datatype Scoreboard = Scoreboard(
    name: string,
    description: Option<string>,
    publicSlug: string,
    status: ScoreboardStatus,
    createdBy: Id,
    createdAt: int)

  /** A row of `scoreboard_teams`: the team takes part in the scoreboard. */
  datatype ScoreboardTeam = ScoreboardTeam(scoreboardId: Id, teamId: Id)

  /** A row of `scorer_users`: the user may record matches on the scoreboard. */
  datatype ScorerUser = ScorerUser(userId: Id, scoreboardId: Id, role: string)

  datatype Match = Match(
    scoreboardId: Id,
    location: Option<string>,
    date: int,
    status: MatchStatus,
    createdBy: Id,
    isEdited: bool,
    remarks: Option<string>)

  /** A row of `match_participants`: one player's result in one match, for one team. */
  datatype Participant = Participant(matchId: Id, teamId: Id, playerId: Id, result: Result)

  /** A match row as `Match.create` stores it when only the required columns are given. */
  function NewMatch(scoreboardId: Id, createdBy: Id, now: int): (m: Match)
    ensures m.status == Scheduled && !m.isEdited && m.date == now
    ensures m.location.None? && m.remarks.None?
    ensures m.scoreboardId == scoreboardId && m.createdBy == createdBy
  {
    Match(scoreboardId, None, now, Scheduled, createdBy, false, None)
  }

  /** A `team_players` row as created: no removal pending. */
  function NewMembership(teamId: Id, playerId: Id): (m: Membership)
    ensures !m.removalRequested && m.teamId == teamId && m.playerId == playerId
  {
    Membership(teamId, playerId, false)
  }

  /** Every table of the database at one moment. */
  datatype Tables = Tables(
    users: map<Id, User>,
    players: map<Id, Player>,
    teams: map<Id, Team>,
    memberships: seq<Membership>,
    scoreboards: map<Id, Scoreboard>,
    scoreboardTeams: seq<ScoreboardTeam>,
    scorerUsers: seq<ScorerUser>,
    matches: map<Id, Match>,
    participants: seq<Participant>)

  function EmptyTables(): Tables
  {
    Tables(map[], map[], map[], [], map[], [], [], map[], [])
  }

  /** The composite unique keys of the three join tables. */
  function MembershipKey(m: Membership): (Id, Id) { (m.teamId, m.playerId) }
  function AssignmentKey(a: ScoreboardTeam): (Id, Id) { (a.scoreboardId, a.teamId) }
  function ScorerKey(a: ScorerUser): (Id, Id) { (a.userId, a.scoreboardId) }

  predicate UniqueIndexes(t: Tables)
  {
    && Unique(t.memberships, MembershipKey)
    && Unique(t.scoreboardTeams, AssignmentKey)
    && Unique(t.scorerUsers, ScorerKey)
  }

  /** `publicSlug` is unique and satisfies its validation on every scoreboard. */
  predicate SlugsOk(t: Tables)
  {
    && (forall a, b :: a in t.scoreboards && b in t.scoreboards && a != b ==>
          t.scoreboards[a].publicSlug != t.scoreboards[b].publicSlug)
    && (forall a :: a in t.scoreboards ==> IsSlug(t.scoreboards[a].publicSlug))
  }

  /** No two users share a non-empty e-mail address (the checks in the register and user-update routes). */
  predicate EmailsOk(t: Tables)
  {
    forall a, b :: a in t.users && b in t.users && a != b && t.users[a].email != "" ==>
      t.users[a].email != t.users[b].email
  }

  /** Every foreign key refers to an existing row. */
  predicate References(t: Tables)
  {
    && (forall m :: m in t.memberships ==> m.teamId in t.teams && m.playerId in t.players)
    && (forall a :: a in t.scoreboardTeams ==> a.scoreboardId in t.scoreboards && a.teamId in t.teams)
    && (forall a :: a in t.scorerUsers ==> a.userId in t.users && a.scoreboardId in t.scoreboards)
    && (forall id :: id in t.matches ==> t.matches[id].scoreboardId in t.scoreboards)
    && (forall p :: p in t.participants ==>
          p.matchId in t.matches && p.teamId in t.teams && p.playerId in t.players)
  }

  predicate WellFormed(t: Tables)
  {
    UniqueIndexes(t) && SlugsOk(t) && EmailsOk(t) && References(t)
  }

  /** The user holds a `scorer_users` row for the scoreboard. */
  predicate IsAssigned(t: Tables, userId: Id, scoreboardId: Id)
  {
    Find(t.scorerUsers, ScorerKey, (userId, scoreboardId)).Some?
  }

  /** The access rule shared by the scoreboard and match routes: an admin, or a scorer assigned to it. */
  predicate HasAccess(t: Tables, caller: Caller, scoreboardId: Id)
  {
    IsAdmin(caller.role) || IsAssigned(t, caller.id, scoreboardId)
  }

  /** The team takes part in the scoreboard. */
  predicate TeamInScoreboard(t: Tables, scoreboardId: Id, teamId: Id)
  {
    Find(t.scoreboardTeams, AssignmentKey, (scoreboardId, teamId)).Some?
  }

  /** The player has a `team_players` row for the team, whether or not a removal is pending. */
  predicate OnTeam(t: Tables, teamId: Id, playerId: Id)
  {
    Find(t.memberships, MembershipKey, (teamId, playerId)).Some?
  }

  /** Deleting a match also deletes its participant rows. */
  function DeleteMatch(t: Tables, id: Id): (r: Tables)
    ensures id !in r.matches && r.matches == t.matches - {id}
    ensures forall p :: p in r.participants <==> p in t.participants && p.matchId != id
    ensures r == t.(matches := r.matches, participants := r.participants)
  {
    t.(matches := t.matches - {id},
       participants := Filter(t.participants, (p: Participant) => p.matchId != id))
  }

  /** Deleting a scoreboard deletes its matches with their participants, its team list and its scorer assignments. */
  function DeleteScoreboard(t: Tables, id: Id): (r: Tables)
    ensures id !in r.scoreboards && r.scoreboards == t.scoreboards - {id}
    ensures forall m :: m in r.matches <==> m in t.matches && t.matches[m].scoreboardId != id
    ensures forall m :: m in r.matches ==> r.matches[m] == t.matches[m]
    ensures forall p :: p in r.participants <==>
      p in t.participants && !(p.matchId in t.matches && t.matches[p.matchId].scoreboardId == id)
    ensures forall a :: a in r.scoreboardTeams <==> a in t.scoreboardTeams && a.scoreboardId != id
    ensures forall a :: a in r.scorerUsers <==> a in t.scorerUsers && a.scoreboardId != id
    ensures r.users == t.users && r.players == t.players && r.teams == t.teams
    ensures r.memberships == t.memberships
  {
    var matches := map m | m in t.matches && t.matches[m].scoreboardId != id :: t.matches[m];
    var participants := Filter(t.participants, (p: Participant) =>
      !(p.matchId in t.matches && t.matches[p.matchId].scoreboardId == id));
    var scoreboardTeams := Filter(t.scoreboardTeams, (a: ScoreboardTeam) => a.scoreboardId != id);
    var scorerUsers := Filter(t.scorerUsers, (a: ScorerUser) => a.scoreboardId != id);
    t.(scoreboards := t.scoreboards - {id}, matches := matches, participants := participants,
       scoreboardTeams := scoreboardTeams, scorerUsers := scorerUsers)
  }

  /** Deleting a team deletes its memberships, its scoreboard entries and its participant rows. */
  function DeleteTeam(t: Tables, id: Id): (r: Tables)
    ensures id !in r.teams && r.teams == t.teams - {id}
    ensures forall m :: m in r.memberships <==> m in t.memberships && m.teamId != id
    ensures forall a :: a in r.scoreboardTeams <==> a in t.scoreboardTeams && a.teamId != id
    ensures forall p :: p in r.participants <==> p in t.participants && p.teamId != id
    ensures r == t.(teams := r.teams, memberships := r.memberships,
                    scoreboardTeams := r.scoreboardTeams, participants := r.participants)
  {
    t.(teams := t.teams - {id},
       memberships := Filter(t.memberships, (m: Membership) => m.teamId != id),
       scoreboardTeams := Filter(t.scoreboardTeams, (a: ScoreboardTeam) => a.teamId != id),
       participants := Filter(t.participants, (p: Participant) => p.teamId != id))
  }

  /** Deleting a player deletes its memberships and its participant rows. */
  function DeletePlayer(t: Tables, id: Id): (r: Tables)
    ensures id !in r.players && r.players == t.players - {id}
    ensures forall m :: m in r.memberships <==> m in t.memberships && m.playerId != id
    ensures forall p :: p in r.participants <==> p in t.participants && p.playerId != id
    ensures r == t.(players := r.players, memberships := r.memberships, participants := r.participants)
  {
    t.(players := t.players - {id},
       memberships := Filter(t.memberships, (m: Membership) => m.playerId != id),
       participants := Filter(t.participants, (p: Participant) => p.playerId != id))
  }

  /** Replacing the membership table keeps the invariant when the new table is keyed and refers to existing rows. */
  lemma {:induction false} MembershipsWellFormed(t: Tables, ms: seq<Membership>)
    requires WellFormed(t) && Unique(ms, MembershipKey)
    requires forall m :: m in ms ==> m.teamId in t.teams && m.playerId in t.players
    ensures WellFormed(t.(memberships := ms))
  {
  }

  /** Storing a team row under any key keeps the invariant: nothing refers to a team that is not there. */
  lemma {:induction false} TeamsWellFormed(t: Tables, id: Id, team: Team)
    requires WellFormed(t)
    ensures WellFormed(t.(teams := t.teams[id := team]))
  {
  }

  lemma {:induction false} PlayersWellFormed(t: Tables, id: Id, player: Player)
    requires WellFormed(t)
    ensures WellFormed(t.(players := t.players[id := player]))
  {
  }

  /** Storing a user row keeps the invariant when its non-empty e-mail is not another user's. */
  lemma {:induction false} UsersWellFormed(t: Tables, id: Id, user: User)
    requires WellFormed(t)
    requires user.email != "" ==> forall u :: u in t.users && u != id ==> t.users[u].email != user.email
    ensures WellFormed(t.(users := t.users[id := user]))
  {
  }

  /** Storing a scoreboard row keeps the invariant when its slug is valid and no other scoreboard's. */
  lemma {:induction false} ScoreboardsWellFormed(t: Tables, id: Id, s: Scoreboard)
    requires WellFormed(t) && IsSlug(s.publicSlug)
    requires forall b :: b in t.scoreboards && b != id ==> t.scoreboards[b].publicSlug != s.publicSlug
    ensures WellFormed(t.(scoreboards := t.scoreboards[id := s]))
  {
  }

  lemma {:induction false} ScoreboardTeamsWellFormed(t: Tables, st: seq<ScoreboardTeam>)
    requires WellFormed(t) && Unique(st, AssignmentKey)
    requires forall a :: a in st ==> a.scoreboardId in t.scoreboards && a.teamId in t.teams
    ensures WellFormed(t.(scoreboardTeams := st))
  {
  }

  lemma {:induction false} ScorerUsersWellFormed(t: Tables, su: seq<ScorerUser>)
    requires WellFormed(t) && Unique(su, ScorerKey)
    requires forall a :: a in su ==> a.userId in t.users && a.scoreboardId in t.scoreboards
    ensures WellFormed(t.(scorerUsers := su))
  {
  }

  /** Storing a match row keeps the invariant when its scoreboard exists. */
  lemma {:induction false} MatchesWellFormed(t: Tables, id: Id, m: Match)
    requires WellFormed(t) && m.scoreboardId in t.scoreboards
    ensures WellFormed(t.(matches := t.matches[id := m]))
  {
  }

  lemma {:induction false} ParticipantsWellFormed(t: Tables, ps: seq<Participant>)
    requires WellFormed(t)
    requires forall p :: p in ps ==> p.matchId in t.matches && p.teamId in t.teams && p.playerId in t.players
    ensures WellFormed(t.(participants := ps))
  {
  }

  /** The cascades leave no dangling reference behind. */
  lemma {:induction false} DeleteMatchWellFormed(t: Tables, id: Id)
    requires WellFormed(t)
    ensures WellFormed(DeleteMatch(t, id))
  {
  }

  lemma {:induction false} DeleteScoreboardWellFormed(t: Tables, id: Id)
    requires WellFormed(t)
    ensures WellFormed(DeleteScoreboard(t, id))
  {
    var r := DeleteScoreboard(t, id);
    FilterUnique(t.scoreboardTeams, AssignmentKey, (a: ScoreboardTeam) => a.scoreboardId != id);
    FilterUnique(t.scorerUsers, ScorerKey, (a: ScorerUser) => a.scoreboardId != id);
  }

  lemma {:induction false} DeleteTeamWellFormed(t: Tables, id: Id)
    requires WellFormed(t)
    ensures WellFormed(DeleteTeam(t, id))
  {
    FilterUnique(t.memberships, MembershipKey, (m: Membership) => m.teamId != id);
    FilterUnique(t.scoreboardTeams, AssignmentKey, (a: ScoreboardTeam) => a.teamId != id);
  }

  lemma {:induction false} DeletePlayerWellFormed(t: Tables, id: Id)
    requires WellFormed(t)
    ensures WellFormed(DeletePlayer(t, id))
  {
    FilterUnique(t.memberships, MembershipKey, (m: Membership) => m.playerId != id);
  }
}
