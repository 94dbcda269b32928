/**
 * The `/api/scoreboards` routes: listing and reading scoreboards under the
 * admin-or-assigned access rule, creating and editing them with a unique
 * valid public slug, deleting them with everything that hangs off them, and
 * the two assignment tables `scoreboard_teams` and `scorer_users`.
 */
module ScoreboardRoutes {
  import opened Common
  import opened Seqs
  import opened Keyed
  import opened Ordering
  import opened Schema
  import opened Store

  /** A scoreboard row together with its primary key, as the list returns it. */
  datatype Listed = Listed(id: Id, row: Scoreboard)

  function NewestFirst(): (Listed, Listed) -> bool
  {
    (a: Listed, b: Listed) => a.row.createdAt >= b.row.createdAt
  }

  function AllRows(t: Tables, ids: seq<Id>): (r: seq<Listed>)
    requires forall i :: 0 <= i < |ids| ==> ids[i] in t.scoreboards
    ensures |r| == |ids|
    ensures forall i :: 0 <= i < |r| ==> r[i] == Listed(ids[i], t.scoreboards[ids[i]])
  {
    seq(|ids|, i requires 0 <= i < |ids| => Listed(ids[i], t.scoreboards[ids[i]]))
  }

  /** The scoreboards of the caller's `scorer_users` rows, one per row, in table order. */
  function AssignedRows(t: Tables, rows: seq<ScorerUser>): (r: seq<Listed>)
    requires forall i :: 0 <= i < |rows| ==> rows[i].scoreboardId in t.scoreboards
    ensures |r| == |rows|
    ensures forall i :: 0 <= i < |r| ==> r[i] == Listed(rows[i].scoreboardId, t.scoreboards[rows[i].scoreboardId])
  {
    seq(|rows|, i requires 0 <= i < |rows| => Listed(rows[i].scoreboardId, t.scoreboards[rows[i].scoreboardId]))
  }

  /** What `GET /api/scoreboards` returns to an admin: every scoreboard, newest first. */
  function AllScoreboards(t: Tables): (r: seq<Listed>)
    ensures |r| == |t.scoreboards|
    ensures forall id :: id in t.scoreboards <==> exists i :: 0 <= i < |r| && r[i].id == id
    ensures forall i :: 0 <= i < |r| ==> r[i].id in t.scoreboards && r[i].row == t.scoreboards[r[i].id]
    ensures forall i, j :: 0 <= i < j < |r| ==> r[i].row.createdAt >= r[j].row.createdAt
  {
    var ids := Ascending(t.scoreboards.Keys);
    assert forall i :: 0 <= i < |ids| ==> ids[i] in t.scoreboards;
    var rows := AllRows(t, ids);
    var r := SortBy(rows, NewestFirst());
    ListedAll(t, ids, rows, r);
    r
  }

  /** What `GET /api/scoreboards` returns to anyone else: the scoreboard of each of their scorer assignments. */
  function AssignedScoreboards(t: Tables, userId: Id): (r: seq<Listed>)
    requires WellFormed(t)
    ensures forall i :: 0 <= i < |r| ==> r[i].id in t.scoreboards && r[i].row == t.scoreboards[r[i].id]
    ensures forall id :: IsAssigned(t, userId, id) <==> exists i :: 0 <= i < |r| && r[i].id == id
    ensures forall i, j :: 0 <= i < j < |r| ==> r[i].id != r[j].id
  {
    var mine := Filter(t.scorerUsers, (a: ScorerUser) => a.userId == userId);
    FilterUnique(t.scorerUsers, ScorerKey, (a: ScorerUser) => a.userId == userId);
    assert forall i :: 0 <= i < |mine| ==> mine[i] in t.scorerUsers;
    var r := AssignedRows(t, mine);
    ListedAssigned(t, userId, mine, r);
    r
  }

  /** `GET /api/scoreboards`. */
  function ListScoreboards(t: Tables, caller: Caller): (r: seq<Listed>)
    requires WellFormed(t)
    ensures IsAdmin(caller.role) ==> r == AllScoreboards(t)
    ensures !IsAdmin(caller.role) ==> r == AssignedScoreboards(t, caller.id)
  {
    if IsAdmin(caller.role) then AllScoreboards(t) else AssignedScoreboards(t, caller.id)
  }

  lemma {:induction false} ListedAll(t: Tables, ids: seq<Id>, rows: seq<Listed>, r: seq<Listed>)
    requires forall id :: id in ids <==> id in t.scoreboards
    requires |rows| == |ids| && forall i :: 0 <= i < |rows| ==> rows[i] == Listed(ids[i], t.scoreboards[ids[i]])
    requires multiset(r) == multiset(rows)
    ensures forall id :: id in t.scoreboards <==> exists i :: 0 <= i < |r| && r[i].id == id
    ensures forall i :: 0 <= i < |r| ==> r[i].id in t.scoreboards && r[i].row == t.scoreboards[r[i].id]
  {
    SameElements(r, rows);
    forall id | id in t.scoreboards ensures exists i :: 0 <= i < |r| && r[i].id == id {
      var k :| 0 <= k < |ids| && ids[k] == id;
      assert rows[k] in r;
    }
    forall i | 0 <= i < |r| ensures r[i].id in t.scoreboards && r[i].row == t.scoreboards[r[i].id] {
      assert r[i] in rows;
    }
  }

  lemma {:induction false} ListedAssigned(t: Tables, userId: Id, mine: seq<ScorerUser>, r: seq<Listed>)
    requires WellFormed(t)
    requires forall a :: a in mine <==> a in t.scorerUsers && a.userId == userId
    requires forall i :: 0 <= i < |mine| ==> mine[i].scoreboardId in t.scoreboards && mine[i].userId == userId
    requires Unique(mine, ScorerKey)
    requires |r| == |mine|
    requires forall i :: 0 <= i < |r| ==> r[i] == Listed(mine[i].scoreboardId, t.scoreboards[mine[i].scoreboardId])
    ensures forall id :: IsAssigned(t, userId, id) <==> exists i :: 0 <= i < |r| && r[i].id == id
    ensures forall i, j :: 0 <= i < j < |r| ==> r[i].id != r[j].id
  {
    forall id ensures IsAssigned(t, userId, id) <==> exists i :: 0 <= i < |r| && r[i].id == id {
      if IsAssigned(t, userId, id) {
        var k := Find(t.scorerUsers, ScorerKey, (userId, id)).value;
        assert t.scorerUsers[k] in mine;
        var i :| 0 <= i < |mine| && mine[i] == t.scorerUsers[k];
        assert r[i].id == id;
      }
      if exists i :: 0 <= i < |r| && r[i].id == id {
        var i :| 0 <= i < |r| && r[i].id == id;
        assert mine[i] in mine;
        var k :| 0 <= k < |t.scorerUsers| && t.scorerUsers[k] == mine[i];
        assert ScorerKey(t.scorerUsers[k]) == (userId, id);
      }
    }
  }

  /** `GET /api/scoreboards/:id`: 404 when missing, 403 unless the caller has access. */
  function GetScoreboard(t: Tables, caller: Caller, id: Id): (r: Reply<Scoreboard>)
    ensures r.Ok? <==> id in t.scoreboards && HasAccess(t, caller, id)
    ensures r.Ok? ==> r.value == t.scoreboards[id]
    ensures id !in t.scoreboards ==> r == Err(404, "Scoreboard not found")
    ensures id in t.scoreboards && !HasAccess(t, caller, id) ==> r == Err(403, "Access denied to this scoreboard")
  {
    if id !in t.scoreboards then Err(404, "Scoreboard not found")
    else if !IsAdmin(caller.role) && !IsAssigned(t, caller.id, id) then Err(403, "Access denied to this scoreboard")
    else Ok(200, t.scoreboards[id])
  }

  /** Whatever the list shows the caller, the caller may also open. */
  lemma {:induction false} ListedAreAccessible(t: Tables, caller: Caller)
    requires WellFormed(t)
    ensures forall i :: 0 <= i < |ListScoreboards(t, caller)| ==>
      GetScoreboard(t, caller, ListScoreboards(t, caller)[i].id).Ok?
  {
    var r := ListScoreboards(t, caller);
    forall i | 0 <= i < |r| ensures GetScoreboard(t, caller, r[i].id).Ok? {
      if !IsAdmin(caller.role) {
        assert exists j :: 0 <= j < |r| && r[j].id == r[i].id;
      }
    }
  }

  /** No scoreboard uses the slug: the `findOne({ where: { publicSlug } })` lookup comes back empty. */
  predicate SlugFree(t: Tables, slug: string)
  {
    forall b :: b in t.scoreboards ==> t.scoreboards[b].publicSlug != slug
  }

  /** The status a request asks for, when it is one the column accepts. */
  function StatusField(status: Option<string>): (r: Option<Option<ScoreboardStatus>>)
    ensures status.None? ==> r == Some(None)
    ensures status.Some? ==> (r.Some? <==> ParseScoreboardStatus(status.value).Some?)
    ensures status.Some? && r.Some? ==> r.value == ParseScoreboardStatus(status.value)
  {
    if status.None? then Some(None)
    else match ParseScoreboardStatus(status.value)
      case None => None
      case Some(s) => Some(Some(s))
  }

  /**
   * `POST /api/scoreboards` (admin only). A slug outside `[a-zA-Z0-9-]+` or an
   * unknown status fails the model validation, which the handler reports as 500.
   */
  method CreateScoreboard(db: Db, caller: Caller, name: Option<string>, description: Option<string>,
                          publicSlug: Option<string>, status: Option<string>, now: int)
    returns (r: Reply<Body>)
    requires db.Valid()
    modifies db`scoreboards, db`nextId
    ensures db.Valid()
    ensures !Truthy(name) || !Truthy(publicSlug) ==>
      r == Err(400, "Name and public slug are required") && unchanged(db)
    ensures Truthy(name) && Truthy(publicSlug) && !SlugFree(old(db.Snapshot()), publicSlug.value) ==>
      r == Err(400, "Public slug already exists") && unchanged(db)
    ensures Truthy(name) && Truthy(publicSlug) && SlugFree(old(db.Snapshot()), publicSlug.value) ==>
      if IsSlug(publicSlug.value) && StatusField(if Truthy(status) then status else None).Some? then
        var st := StatusField(if Truthy(status) then status else None).value;
        && r == Ok(201, Record(old(db.nextId)))
        && db.scoreboards == old(db.scoreboards)[old(db.nextId) :=
             Scoreboard(name.value, description, publicSlug.value, Assign(Active, st), caller.id, now)]
      else
        r == Err(500, "Failed to create scoreboard") && unchanged(db)
  {
    if !Truthy(name) || !Truthy(publicSlug) {
      return Err(400, "Name and public slug are required");
    }
    var slug := publicSlug.value;
    if !SlugFree(db.Snapshot(), slug) {
      return Err(400, "Public slug already exists");
    }
    var st := StatusField(if Truthy(status) then status else None);
    if !IsSlug(slug) || st.None? {
      return Err(500, "Failed to create scoreboard");
    }
    var id := db.FreshId();
    var row := Scoreboard(name.value, description, slug, Assign(Active, st.value), caller.id, now);
    ScoreboardsWellFormed(db.Snapshot(), id, row);
    db.scoreboards := db.scoreboards[id := row];
    return Ok(201, Record(id));
  }

  /** The row `scoreboard.update({ name, description, publicSlug, status })` leaves: absent fields keep their value. */
  function Edited(cur: Scoreboard, name: Option<string>, description: Option<string>,
                  publicSlug: Option<string>, status: Option<ScoreboardStatus>): (r: Scoreboard)
    ensures r.createdBy == cur.createdBy && r.createdAt == cur.createdAt
    ensures name.None? && description.None? && publicSlug.None? && status.None? ==> r == cur
    ensures publicSlug.Some? ==> r.publicSlug == publicSlug.value
  {
    cur.(name := Assign(cur.name, name),
         description := if description.Some? then description else cur.description,
         publicSlug := Assign(cur.publicSlug, publicSlug),
         status := Assign(cur.status, status))
  }

  /** The update's uniqueness check fails: a new, non-empty slug that some scoreboard already uses. */
  predicate SlugClash(t: Tables, cur: Scoreboard, publicSlug: Option<string>)
  {
    Truthy(publicSlug) && publicSlug.value != cur.publicSlug && !SlugFree(t, publicSlug.value)
  }

  /**
   * `PUT /api/scoreboards/:id` (admin only). The slug is checked for
   * uniqueness only when it is given and differs from the current one; an
   * invalid slug or status fails validation (500).
   */
  method UpdateScoreboard(db: Db, id: Id, name: Option<string>, description: Option<string>,
                          publicSlug: Option<string>, status: Option<string>)
    returns (r: Reply<Body>)
    requires db.Valid()
    modifies db`scoreboards
    ensures db.Valid()
    ensures id !in old(db.scoreboards) ==> r == Err(404, "Scoreboard not found") && unchanged(db)
    ensures id in old(db.scoreboards) && SlugClash(old(db.Snapshot()), old(db.scoreboards)[id], publicSlug) ==>
      r == Err(400, "Public slug already exists") && unchanged(db)
    ensures id in old(db.scoreboards) && !SlugClash(old(db.Snapshot()), old(db.scoreboards)[id], publicSlug) ==>
      var cur := old(db.scoreboards)[id];
      if !IsSlug(Assign(cur.publicSlug, publicSlug)) || StatusField(status).None? then
        r == Err(500, "Failed to update scoreboard") && unchanged(db)
      else
        && r == Ok(200, Record(id))
        && db.scoreboards == old(db.scoreboards)[id := Edited(cur, name, description, publicSlug, StatusField(status).value)]
  {
    if id !in db.scoreboards {
      return Err(404, "Scoreboard not found");
    }
    var cur := db.scoreboards[id];
    if SlugClash(db.Snapshot(), cur, publicSlug) {
      return Err(400, "Public slug already exists");
    }
    var st := StatusField(status);
    if !IsSlug(Assign(cur.publicSlug, publicSlug)) || st.None? {
      return Err(500, "Failed to update scoreboard");
    }
    var row := Edited(cur, name, description, publicSlug, st.value);
    ScoreboardsWellFormed(db.Snapshot(), id, row);
    db.scoreboards := db.scoreboards[id := row];
    return Ok(200, Record(id));
  }

  /** `DELETE /api/scoreboards/:id` (admin only): its matches, team list and scorer assignments go with it. */
  method DeleteScoreboard(db: Db, id: Id) returns (r: Reply<Body>)
    requires db.Valid()
    modifies db
    ensures db.Valid() && db.nextId == old(db.nextId)
    ensures id !in old(db.scoreboards) ==> r == Err(404, "Scoreboard not found") && db.Snapshot() == old(db.Snapshot())
    ensures id in old(db.scoreboards) ==>
      && r == Ok(200, Message("Scoreboard deleted successfully"))
      && db.Snapshot() == Schema.DeleteScoreboard(old(db.Snapshot()), id)
  {
    if id !in db.scoreboards {
      return Err(404, "Scoreboard not found");
    }
    DeleteScoreboardWellFormed(db.Snapshot(), id);
    db.Store(Schema.DeleteScoreboard(db.Snapshot(), id));
    return Ok(200, Message("Scoreboard deleted successfully"));
  }

  /** The abstract `scoreboard_teams` table: each (scoreboard, team) pair with its row. */
  function Teams(st: seq<ScoreboardTeam>): map<(Id, Id), ScoreboardTeam>
  {
    Index(st, AssignmentKey)
  }

  /** The abstract `scorer_users` table: each (user, scoreboard) pair with its row. */
  function Scorers(su: seq<ScorerUser>): map<(Id, Id), ScorerUser>
  {
    Index(su, ScorerKey)
  }

  /** Deletes the `scoreboard_teams` row at `k`, keeping the invariant. */
  method DropAssignment(db: Db, k: nat)
    requires db.Valid() && k < |db.scoreboardTeams|
    modifies db`scoreboardTeams
    ensures db.Valid()
    ensures Teams(db.scoreboardTeams) == old(Teams(db.scoreboardTeams)) - {AssignmentKey(old(db.scoreboardTeams)[k])}
  {
    var st := db.scoreboardTeams[..k] + db.scoreboardTeams[k + 1..];
    RemoveAt(db.scoreboardTeams, AssignmentKey, k);
    RemoveAtIn(db.scoreboardTeams, k);
    ScoreboardTeamsWellFormed(db.Snapshot(), st);
    db.scoreboardTeams := st;
  }

  /** Deletes the `scorer_users` row at `k`, keeping the invariant. */
  method DropScorer(db: Db, k: nat)
    requires db.Valid() && k < |db.scorerUsers|
    modifies db`scorerUsers
    ensures db.Valid()
    ensures Scorers(db.scorerUsers) == old(Scorers(db.scorerUsers)) - {ScorerKey(old(db.scorerUsers)[k])}
  {
    var su := db.scorerUsers[..k] + db.scorerUsers[k + 1..];
    RemoveAt(db.scorerUsers, ScorerKey, k);
    RemoveAtIn(db.scorerUsers, k);
    ScorerUsersWellFormed(db.Snapshot(), su);
    db.scorerUsers := su;
  }

  /** `POST /api/scoreboards/:id/teams` (admin only). */
  method AssignTeam(db: Db, scoreboardId: Id, teamId: Option<Id>) returns (r: Reply<Body>)
    requires db.Valid()
    modifies db`scoreboardTeams
    ensures db.Valid()
    ensures teamId.None? ==> r == Err(400, "Team ID is required") && unchanged(db)
    ensures teamId.Some? && scoreboardId !in db.scoreboards ==> r == Err(404, "Scoreboard not found") && unchanged(db)
    ensures teamId.Some? && scoreboardId in db.scoreboards && teamId.value !in db.teams ==>
      r == Err(404, "Team not found") && unchanged(db)
    ensures teamId.Some? && scoreboardId in db.scoreboards && teamId.value in db.teams ==>
      var key, before := (scoreboardId, teamId.value), old(Teams(db.scoreboardTeams));
      if key in before then
        r == Err(400, "Team already assigned to this scoreboard") && unchanged(db)
      else
        && r == Ok(200, Record(scoreboardId))
        && db.scoreboardTeams == old(db.scoreboardTeams) + [ScoreboardTeam(scoreboardId, teamId.value)]
        && Teams(db.scoreboardTeams) == before[key := ScoreboardTeam(scoreboardId, teamId.value)]
  {
    if teamId.None? {
      return Err(400, "Team ID is required");
    }
    if scoreboardId !in db.scoreboards {
      return Err(404, "Scoreboard not found");
    }
    if teamId.value !in db.teams {
      return Err(404, "Team not found");
    }
    FindIndex(db.scoreboardTeams, AssignmentKey, (scoreboardId, teamId.value));
    if Find(db.scoreboardTeams, AssignmentKey, (scoreboardId, teamId.value)).Some? {
      return Err(400, "Team already assigned to this scoreboard");
    }
    var row := ScoreboardTeam(scoreboardId, teamId.value);
    AppendNew(db.scoreboardTeams, AssignmentKey, row);
    ScoreboardTeamsWellFormed(db.Snapshot(), db.scoreboardTeams + [row]);
    db.scoreboardTeams := db.scoreboardTeams + [row];
    return Ok(200, Record(scoreboardId));
  }

  /** `DELETE /api/scoreboards/:id/teams/:teamId` (admin only): only that pair goes. */
  method RemoveTeam(db: Db, scoreboardId: Id, teamId: Id) returns (r: Reply<Body>)
    requires db.Valid()
    modifies db`scoreboardTeams
    ensures db.Valid()
    ensures var key, before := (scoreboardId, teamId), old(Teams(db.scoreboardTeams));
      && (key !in before ==> r == Err(404, "Team not assigned to this scoreboard") && unchanged(db))
      && (key in before ==>
            r == Ok(200, Message("Team removed from scoreboard successfully")) &&
            Teams(db.scoreboardTeams) == before - {key})
  {
    FindIndex(db.scoreboardTeams, AssignmentKey, (scoreboardId, teamId));
    var found := Find(db.scoreboardTeams, AssignmentKey, (scoreboardId, teamId));
    if found.None? {
      return Err(404, "Team not assigned to this scoreboard");
    }
    DropAssignment(db, found.value);
    return Ok(200, Message("Team removed from scoreboard successfully"));
  }

  /** `POST /api/scoreboards/:id/scorers` (admin only). */
  method AssignScorer(db: Db, scoreboardId: Id, userId: Option<Id>) returns (r: Reply<Body>)
    requires db.Valid()
    modifies db`scorerUsers
    ensures db.Valid()
    ensures userId.None? ==> r == Err(400, "User ID is required") && unchanged(db)
    ensures userId.Some? && scoreboardId !in db.scoreboards ==> r == Err(404, "Scoreboard not found") && unchanged(db)
    ensures userId.Some? && scoreboardId in db.scoreboards && userId.value !in db.users ==>
      r == Err(404, "User not found") && unchanged(db)
    ensures userId.Some? && scoreboardId in db.scoreboards && userId.value in db.users ==>
      var key, before, role := (userId.value, scoreboardId), old(Scorers(db.scorerUsers)), db.users[userId.value].role;
      if role != "scorer" && role != "admin" then
        r == Err(400, "User must be a scorer or admin") && unchanged(db)
      else if key in before then
        r == Err(400, "User already assigned to this scoreboard") && unchanged(db)
      else
        && r == Ok(200, Record(scoreboardId))
        && db.scorerUsers == old(db.scorerUsers) + [ScorerUser(userId.value, scoreboardId, "scorer")]
        && Scorers(db.scorerUsers) == before[key := ScorerUser(userId.value, scoreboardId, "scorer")]
  {
    if userId.None? {
      return Err(400, "User ID is required");
    }
    if scoreboardId !in db.scoreboards {
      return Err(404, "Scoreboard not found");
    }
    var uid := userId.value;
    if uid !in db.users {
      return Err(404, "User not found");
    }
    if db.users[uid].role != "scorer" && db.users[uid].role != "admin" {
      return Err(400, "User must be a scorer or admin");
    }
    FindIndex(db.scorerUsers, ScorerKey, (uid, scoreboardId));
    if Find(db.scorerUsers, ScorerKey, (uid, scoreboardId)).Some? {
      return Err(400, "User already assigned to this scoreboard");
    }
    var row := ScorerUser(uid, scoreboardId, "scorer");
    AppendNew(db.scorerUsers, ScorerKey, row);
    ScorerUsersWellFormed(db.Snapshot(), db.scorerUsers + [row]);
    db.scorerUsers := db.scorerUsers + [row];
    return Ok(200, Record(scoreboardId));
  }

  /** `DELETE /api/scoreboards/:id/scorers/:userId` (admin only): only that pair goes. */
  method RemoveScorer(db: Db, scoreboardId: Id, userId: Id) returns (r: Reply<Body>)
    requires db.Valid()
    modifies db`scorerUsers
    ensures db.Valid()
    ensures var key, before := (userId, scoreboardId), old(Scorers(db.scorerUsers));
      && (key !in before ==> r == Err(404, "User not assigned to this scoreboard") && unchanged(db))
      && (key in before ==>
            r == Ok(200, Message("Scorer removed from scoreboard successfully")) &&
            Scorers(db.scorerUsers) == before - {key})
  {
    FindIndex(db.scorerUsers, ScorerKey, (userId, scoreboardId));
    var found := Find(db.scorerUsers, ScorerKey, (userId, scoreboardId));
    if found.None? {
      return Err(404, "User not assigned to this scoreboard");
    }
    DropScorer(db, found.value);
    return Ok(200, Message("Scorer removed from scoreboard successfully"));
  }

  /** After a scorer is assigned, the scoreboard opens for them; after removal, it no longer does (for a non-admin). */
  lemma {:induction false} AssignmentGrantsAccess(t: Tables, userId: Id, role: string, scoreboardId: Id)
    requires Unique(t.scorerUsers, ScorerKey)
    ensures var caller := Caller(userId, role);
      && (!IsAdmin(role) ==>
            (GetScoreboard(t, caller, scoreboardId).Ok? <==>
               scoreboardId in t.scoreboards && (userId, scoreboardId) in Scorers(t.scorerUsers)))
  {
    FindIndex(t.scorerUsers, ScorerKey, (userId, scoreboardId));
  }
}
