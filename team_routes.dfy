/**
 * The `/api/teams` routes: listing and editing teams, and the roster
 * workflow on `team_players` — an admin removes a player at once, a scorer
 * only flags the row with `removalRequested`, and an admin then approves
 * (deletes) or rejects (clears the flag); re-adding a flagged player clears
 * the flag.
 */
module TeamRoutes {
  import opened Common
  import opened Seqs
  import opened Keyed
  import opened Ordering
  import opened Schema
  import opened Store
  import Storage

  /** A player as listed on a team, with the `team_players.removalRequested` flag. */
  datatype RosterEntry = RosterEntry(playerId: Id, name: string, photo: Option<string>, removalRequested: bool)

  datatype TeamView = TeamView(id: Id, name: string, logo: Option<string>, players: seq<RosterEntry>)

  function Entry(t: Tables, m: Membership): RosterEntry
    requires m.playerId in t.players
  {
    RosterEntry(m.playerId, t.players[m.playerId].name, t.players[m.playerId].photo, m.removalRequested)
  }

  /** The `players` association of a team: one entry per `team_players` row of the team. */
  function Roster(t: Tables, teamId: Id): (r: seq<RosterEntry>)
    ensures forall m :: m in t.memberships && m.teamId == teamId && m.playerId in t.players ==>
      Entry(t, m) in r
    ensures forall e :: e in r ==>
      (exists m :: m in t.memberships && m.teamId == teamId && m.playerId in t.players && e == Entry(t, m))
  {
    var rows := Filter(t.memberships, (m: Membership) => m.teamId == teamId && m.playerId in t.players);
    var r := seq(|rows|, i requires 0 <= i < |rows| => Entry(t, rows[i]));
    assert forall m :: m in rows ==> Entry(t, m) in r by {
      forall m | m in rows ensures Entry(t, m) in r {
        var i :| 0 <= i < |rows| && rows[i] == m;
        assert r[i] == Entry(t, m);
      }
    }
    r
  }

  function View(t: Tables, id: Id): TeamView
    requires id in t.teams
  {
    TeamView(id, t.teams[id].name, t.teams[id].logo, Roster(t, id))
  }

  function NameOrder(): (TeamView, TeamView) -> bool
  {
    (a: TeamView, b: TeamView) => StrLe(a.name, b.name)
  }

  lemma {:induction false} NameOrderTotal()
    ensures TotalPreorder(NameOrder())
  {
    StrLeTotalPreorder();
  }

  /** The views of the listed teams, in the order of `ids`. */
  function Views(t: Tables, ids: seq<Id>): (r: seq<TeamView>)
    requires forall i :: 0 <= i < |ids| ==> ids[i] in t.teams
    ensures |r| == |ids|
    ensures forall i :: 0 <= i < |r| ==> r[i].id == ids[i] && r[i] == View(t, ids[i])
  {
    seq(|ids|, i requires 0 <= i < |ids| => View(t, ids[i]))
  }

  /** `GET /api/teams`: every team once, with its roster, ordered by name. */
  function ListTeams(t: Tables): (r: seq<TeamView>)
    ensures |r| == |t.teams|
    ensures forall id :: id in t.teams <==> exists i :: 0 <= i < |r| && r[i].id == id
    ensures forall i :: 0 <= i < |r| ==> r[i].id in t.teams && r[i] == View(t, r[i].id)
    ensures forall i, j :: 0 <= i < j < |r| ==> StrLe(r[i].name, r[j].name)
  {
    var ids := Ascending(t.teams.Keys);
    assert forall i :: 0 <= i < |ids| ==> ids[i] in t.teams;
    var views := Views(t, ids);
    NameOrderTotal();
    var r := SortBy(views, NameOrder());
    ListedTeams(t, ids, views, r);
    r
  }

  lemma {:induction false} ListedTeams(t: Tables, ids: seq<Id>, views: seq<TeamView>, r: seq<TeamView>)
    requires forall id :: id in ids <==> id in t.teams
    requires |views| == |ids| && forall i :: 0 <= i < |views| ==> views[i].id == ids[i] && views[i] == View(t, ids[i])
    requires multiset(r) == multiset(views)
    ensures forall id :: id in t.teams <==> exists i :: 0 <= i < |r| && r[i].id == id
    ensures forall i :: 0 <= i < |r| ==> r[i].id in t.teams && r[i] == View(t, r[i].id)
  {
    SameElements(r, views);
    forall id | id in t.teams ensures exists i :: 0 <= i < |r| && r[i].id == id {
      var k :| 0 <= k < |ids| && ids[k] == id;
      assert views[k] in r;
    }
    forall i | 0 <= i < |r| ensures r[i].id in t.teams && r[i] == View(t, r[i].id) {
      assert r[i] in views;
    }
  }

  /** `GET /api/teams/:id`. */
  function GetTeam(t: Tables, id: Id): (r: Reply<TeamView>)
    ensures r.Ok? <==> id in t.teams
    ensures r.Ok? ==> r.value.id == id && r.value.players == Roster(t, id)
    ensures r.Err? ==> r == Err(404, "Team not found")
  {
    if id in t.teams then Ok(200, View(t, id)) else Err(404, "Team not found")
  }

  /** `POST /api/teams` (admin only); `upload` is the stored file's key or path. */
  method CreateTeam(db: Db, cfg: Storage.Config, name: Option<string>, logo: Option<string>, upload: Option<string>)
    returns (r: Reply<Body>)
    requires db.Valid()
    modifies db`teams, db`nextId
    ensures db.Valid()
    ensures !Truthy(name) ==> r == Err(400, "Team name is required") && db.teams == old(db.teams)
    ensures Truthy(name) ==>
      && r == Ok(201, Record(old(db.nextId)))
      && db.teams == old(db.teams)[old(db.nextId) := Team(name.value, Assign(None, Storage.ImageField(cfg, logo, upload, "teams")))]
  {
    var logoField := Storage.ImageField(cfg, logo, upload, "teams");
    if !Truthy(name) {
      return Err(400, "Team name is required");
    }
    var id := db.FreshId();
    TeamsWellFormed(db.Snapshot(), id, Team(name.value, Assign(None, logoField)));
    db.teams := db.teams[id := Team(name.value, Assign(None, logoField))];
    return Ok(201, Record(id));
  }

  /** The team after `team.update({ name, logo })`, the logo being the uploaded file's URL when a file came. */
  function Updated(cur: Team, cfg: Storage.Config, name: Option<string>, logo: Option<string>, upload: Option<string>): Team
  {
    Team(Assign(cur.name, name), Assign(cur.logo, Storage.ImageField(cfg, logo, upload, "teams")))
  }

  /**
   * `update` skips the fields the request leaves out: a request without a
   * name keeps the name, one without a logo and a file keeps the logo, an
   * empty request keeps the team, and sending the same request again changes
   * nothing further.
   */
  lemma {:induction false} UpdateKeepsAbsentFields(cfg: Storage.Config, cur: Team, name: Option<string>,
                                                   logo: Option<string>, upload: Option<string>)
    ensures name.None? ==> Updated(cur, cfg, name, logo, upload).name == cur.name
    ensures logo.None? && upload.None? ==> Updated(cur, cfg, name, logo, upload).logo == cur.logo
    ensures name.None? && logo.None? && upload.None? ==> Updated(cur, cfg, name, logo, upload) == cur
    ensures Updated(Updated(cur, cfg, name, logo, upload), cfg, name, logo, upload) == Updated(cur, cfg, name, logo, upload)
  {
  }

  /** `PUT /api/teams/:id` (admin only). Removing the replaced logo file is storage I/O, left out. */
  method UpdateTeam(db: Db, cfg: Storage.Config, id: Id, name: Option<string>, logo: Option<string>, upload: Option<string>)
    returns (r: Reply<Body>)
    requires db.Valid()
    modifies db`teams
    ensures db.Valid()
    ensures id !in old(db.teams) ==> r == Err(404, "Team not found") && db.teams == old(db.teams)
    ensures id in old(db.teams) ==>
      && r == Ok(200, Record(id))
      && db.teams == old(db.teams)[id := Updated(old(db.teams)[id], cfg, name, logo, upload)]
  {
    if id !in db.teams {
      return Err(404, "Team not found");
    }
    var updated := Updated(db.teams[id], cfg, name, logo, upload);
    TeamsWellFormed(db.Snapshot(), id, updated);
    db.teams := db.teams[id := updated];
    return Ok(200, Record(id));
  }

  /** `DELETE /api/teams/:id` (admin only): the team goes, and so does every row that refers to it. */
  method DeleteTeam(db: Db, id: Id) returns (r: Reply<Body>)
    requires db.Valid()
    modifies db
    ensures db.Valid() && db.nextId == old(db.nextId)
    ensures id !in old(db.teams) ==> r == Err(404, "Team not found") && db.Snapshot() == old(db.Snapshot())
    ensures id in old(db.teams) ==>
      && r == Ok(200, Message("Team deleted successfully"))
      && db.Snapshot() == Schema.DeleteTeam(old(db.Snapshot()), id)
  {
    if id !in db.teams {
      return Err(404, "Team not found");
    }
    DeleteTeamWellFormed(db.Snapshot(), id);
    db.Store(Schema.DeleteTeam(db.Snapshot(), id));
    return Ok(200, Message("Team deleted successfully"));
  }

  /** The abstract roster table: each (team, player) pair with its row. */
  function Rows(ms: seq<Membership>): map<(Id, Id), Membership>
  {
    Index(ms, MembershipKey)
  }

  /** Sets the removal flag of the row at `k`, keeping the invariant. */
  method SetFlag(db: Db, k: nat, flag: bool)
    requires db.Valid() && k < |db.memberships|
    modifies db`memberships
    ensures db.Valid()
    ensures db.memberships == old(db.memberships)[k := old(db.memberships)[k].(removalRequested := flag)]
    ensures Rows(db.memberships) ==
      old(Rows(db.memberships))[MembershipKey(old(db.memberships)[k]) := old(db.memberships)[k].(removalRequested := flag)]
  {
    var row := db.memberships[k].(removalRequested := flag);
    var ms := db.memberships[k := row];
    UpdateAt(db.memberships, MembershipKey, k, row);
    assert forall m :: m in ms ==> m == row || m in db.memberships;
    MembershipsWellFormed(db.Snapshot(), ms);
    db.memberships := ms;
  }

  /** Deletes the row at `k`, keeping the invariant. */
  method DeleteRow(db: Db, k: nat)
    requires db.Valid() && k < |db.memberships|
    modifies db`memberships
    ensures db.Valid()
    ensures db.memberships == old(db.memberships)[..k] + old(db.memberships)[k + 1..]
    ensures Rows(db.memberships) == old(Rows(db.memberships)) - {MembershipKey(old(db.memberships)[k])}
  {
    var ms := db.memberships[..k] + db.memberships[k + 1..];
    RemoveAt(db.memberships, MembershipKey, k);
    assert forall m :: m in ms ==> m in db.memberships;
    MembershipsWellFormed(db.Snapshot(), ms);
    db.memberships := ms;
  }

  /** Appends a row for a pair that has none, keeping the invariant. */
  method AppendRow(db: Db, row: Membership)
    requires db.Valid() && MembershipKey(row) !in Rows(db.memberships)
    requires row.teamId in db.teams && row.playerId in db.players
    modifies db`memberships
    ensures db.Valid()
    ensures db.memberships == old(db.memberships) + [row]
    ensures Rows(db.memberships) == old(Rows(db.memberships))[MembershipKey(row) := row]
  {
    var ms := db.memberships + [row];
    AppendNew(db.memberships, MembershipKey, row);
    MembershipsWellFormed(db.Snapshot(), ms);
    db.memberships := ms;
  }

  /** `POST /api/teams/:id/players`. */
  method AddPlayer(db: Db, teamId: Id, playerId: Option<Id>) returns (r: Reply<Body>)
    requires db.Valid()
    modifies db`memberships
    ensures db.Valid()
    ensures playerId.None? ==> r == Err(400, "Player ID is required") && unchanged(db)
    ensures playerId.Some? && teamId !in db.teams ==> r == Err(404, "Team not found") && unchanged(db)
    ensures playerId.Some? && teamId in db.teams && playerId.value !in db.players ==>
      r == Err(404, "Player not found") && unchanged(db)
    ensures playerId.Some? && teamId in db.teams && playerId.value in db.players ==>
      var key, before := (teamId, playerId.value), old(Rows(db.memberships));
      if key !in before then
        r == Ok(200, Record(teamId)) &&
        db.memberships == old(db.memberships) + [NewMembership(teamId, playerId.value)] &&
        Rows(db.memberships) == before[key := NewMembership(teamId, playerId.value)]
      else if before[key].removalRequested then
        r == Ok(200, Message("Player removal request cancelled, player is back in team")) &&
        Rows(db.memberships) == before[key := before[key].(removalRequested := false)] &&
        |db.memberships| == |old(db.memberships)|
      else
        r == Err(400, "Player already assigned to this team") && unchanged(db)
  {
    if playerId.None? {
      return Err(400, "Player ID is required");
    }
    var pid := playerId.value;
    if teamId !in db.teams {
      return Err(404, "Team not found");
    }
    if pid !in db.players {
      return Err(404, "Player not found");
    }
    FindIndex(db.memberships, MembershipKey, (teamId, pid));
    var existing := Find(db.memberships, MembershipKey, (teamId, pid));
    if existing.Some? {
      if db.memberships[existing.value].removalRequested {
        SetFlag(db, existing.value, false);
        return Ok(200, Message("Player removal request cancelled, player is back in team"));
      }
      return Err(400, "Player already assigned to this team");
    }
    AppendRow(db, NewMembership(teamId, pid));
    return Ok(200, Record(teamId));
  }

  /** The membership rows once the removal route has found the pair: an admin's call deletes it, anyone else's flags it. */
  function AfterRemoval(before: map<(Id, Id), Membership>, key: (Id, Id), role: string): map<(Id, Id), Membership>
    requires key in before
  {
    if IsAdmin(role) then before - {key} else before[key := before[key].(removalRequested := true)]
  }

  /** `DELETE /api/teams/:id/players/:playerId`: an admin deletes the row, anyone else flags it. */
  method RemovePlayer(db: Db, caller: Caller, teamId: Id, playerId: Id) returns (r: Reply<Body>)
    requires db.Valid()
    modifies db`memberships
    ensures db.Valid()
    ensures var key, before := (teamId, playerId), old(Rows(db.memberships));
      && (key !in before ==> r == Err(404, "Player not assigned to this team") && unchanged(db))
      && (key in before && IsAdmin(caller.role) ==>
            r == Ok(200, Message("Player removed from team successfully")) &&
            Rows(db.memberships) == before - {key})
      && (key in before && !IsAdmin(caller.role) ==>
            r == Ok(200, Message("Removal request sent to admin for approval")) &&
            Rows(db.memberships) == before[key := before[key].(removalRequested := true)])
      && (key in before ==> Rows(db.memberships) == AfterRemoval(before, key, caller.role))
  {
    FindIndex(db.memberships, MembershipKey, (teamId, playerId));
    var found := Find(db.memberships, MembershipKey, (teamId, playerId));
    if found.None? {
      return Err(404, "Player not assigned to this team");
    }
    if IsAdmin(caller.role) {
      DeleteRow(db, found.value);
      return Ok(200, Message("Player removed from team successfully"));
    }
    SetFlag(db, found.value, true);
    return Ok(200, Message("Removal request sent to admin for approval"));
  }

  /** `POST /api/teams/:id/players/:playerId/approval` (admin only). The flag itself is not consulted. */
  method DecideRemoval(db: Db, teamId: Id, playerId: Id, action: Option<string>) returns (r: Reply<Body>)
    requires db.Valid()
    modifies db`memberships
    ensures db.Valid()
    ensures var key, before := (teamId, playerId), old(Rows(db.memberships));
      && (key !in before ==> r == Err(404, "Player assignment not found") && unchanged(db))
      && (key in before && action == Some("approve") ==>
            r == Ok(200, Message("Player removal approved and processed")) &&
            Rows(db.memberships) == before - {key})
      && (key in before && action == Some("reject") ==>
            r == Ok(200, Message("Player removal request rejected")) &&
            Rows(db.memberships) == before[key := before[key].(removalRequested := false)])
      && (key in before && action != Some("approve") && action != Some("reject") ==>
            r == Err(400, "Invalid action. Use \"approve\" or \"reject\".") && unchanged(db))
  {
    FindIndex(db.memberships, MembershipKey, (teamId, playerId));
    var found := Find(db.memberships, MembershipKey, (teamId, playerId));
    if found.None? {
      return Err(404, "Player assignment not found");
    }
    if action == Some("approve") {
      DeleteRow(db, found.value);
      return Ok(200, Message("Player removal approved and processed"));
    } else if action == Some("reject") {
      SetFlag(db, found.value, false);
      return Ok(200, Message("Player removal request rejected"));
    }
    return Err(400, "Invalid action. Use \"approve\" or \"reject\".");
  }
}
