/**
 * The `/api/players` routes: the player list ordered by name, reading one
 * player with their teams, and the admin's create, update and delete, where
 * an uploaded photo takes the place of the `photo` field of the body.
 */
module PlayerRoutes {
  import opened Common
  import opened Seqs
  import opened Ordering
  import opened Schema
  import opened Store
  import Storage

  /** A player row with its primary key. */
  datatype Listed = Listed(id: Id, row: Player)

  /** A player as `GET /api/players/:id` returns it, with the teams of its `team_players` rows. */
  datatype PlayerView = PlayerView(id: Id, name: string, photo: Option<string>, teams: seq<Id>)

  function NameOrder(): (Listed, Listed) -> bool
  {
    (a: Listed, b: Listed) => StrLe(a.row.name, b.row.name)
  }

  lemma {:induction false} NameOrderTotal()
    ensures TotalPreorder(NameOrder())
  {
    StrLeTotalPreorder();
  }

  function Rows(t: Tables, ids: seq<Id>): (r: seq<Listed>)
    requires forall i :: 0 <= i < |ids| ==> ids[i] in t.players
    ensures |r| == |ids|
    ensures forall i :: 0 <= i < |r| ==> r[i] == Listed(ids[i], t.players[ids[i]])
  {
    seq(|ids|, i requires 0 <= i < |ids| => Listed(ids[i], t.players[ids[i]]))
  }

  /** `GET /api/players`: every player once, ordered by name. */
  function ListPlayers(t: Tables): (r: seq<Listed>)
    ensures |r| == |t.players|
    ensures forall id :: id in t.players <==> exists i :: 0 <= i < |r| && r[i].id == id
    ensures forall i :: 0 <= i < |r| ==> r[i].id in t.players && r[i].row == t.players[r[i].id]
    ensures forall i, j :: 0 <= i < j < |r| ==> StrLe(r[i].row.name, r[j].row.name)
  {
    var ids := Ascending(t.players.Keys);
    assert forall i :: 0 <= i < |ids| ==> ids[i] in t.players;
    var rows := Rows(t, ids);
    NameOrderTotal();
    var r := SortBy(rows, NameOrder());
    ListedAll(t, ids, rows, r);
    r
  }

  lemma {:induction false} ListedAll(t: Tables, ids: seq<Id>, rows: seq<Listed>, r: seq<Listed>)
    requires forall id :: id in ids <==> id in t.players
    requires |rows| == |ids| && forall i :: 0 <= i < |rows| ==> rows[i] == Listed(ids[i], t.players[ids[i]])
    requires multiset(r) == multiset(rows)
    ensures forall id :: id in t.players <==> exists i :: 0 <= i < |r| && r[i].id == id
    ensures forall i :: 0 <= i < |r| ==> r[i].id in t.players && r[i].row == t.players[r[i].id]
  {
    SameElements(r, rows);
    forall id | id in t.players ensures exists i :: 0 <= i < |r| && r[i].id == id {
      var k :| 0 <= k < |ids| && ids[k] == id;
      assert rows[k] in r;
    }
    forall i | 0 <= i < |r| ensures r[i].id in t.players && r[i].row == t.players[r[i].id] {
      assert r[i] in rows;
    }
  }

  /** The teams whose `team_players` rows name the player, in table order. */
  function TeamsOf(t: Tables, playerId: Id): (r: seq<Id>)
    ensures forall teamId :: teamId in r <==> exists m :: m in t.memberships && m.playerId == playerId && m.teamId == teamId
  {
    var rows := Filter(t.memberships, (m: Membership) => m.playerId == playerId);
    var r := Map(rows, (m: Membership) => m.teamId);
    forall teamId | exists m :: m in t.memberships && m.playerId == playerId && m.teamId == teamId
      ensures teamId in r
    {
      var m :| m in t.memberships && m.playerId == playerId && m.teamId == teamId;
      var i :| 0 <= i < |rows| && rows[i] == m;
      assert r[i] == teamId;
    }
    r
  }

  /** `GET /api/players/:id`. */
  function GetPlayer(t: Tables, id: Id): (r: Reply<PlayerView>)
    ensures r.Ok? <==> id in t.players
    ensures r.Ok? ==> r.value.id == id && r.value.name == t.players[id].name && r.value.photo == t.players[id].photo
    ensures r.Ok? ==> r.value.teams == TeamsOf(t, id)
    ensures r.Err? ==> r == Err(404, "Player not found")
  {
    if id !in t.players then Err(404, "Player not found")
    else Ok(200, PlayerView(id, t.players[id].name, t.players[id].photo, TeamsOf(t, id)))
  }

  /** `POST /api/players` (admin only); `upload` is the stored file's key or path. */
  method CreatePlayer(db: Db, cfg: Storage.Config, name: Option<string>, photo: Option<string>, upload: Option<string>)
    returns (r: Reply<Body>)
    requires db.Valid()
    modifies db`players, db`nextId
    ensures db.Valid()
    ensures !Truthy(name) ==> r == Err(400, "Player name is required") && unchanged(db)
    ensures Truthy(name) ==>
      && r == Ok(201, Record(old(db.nextId)))
      && db.players == old(db.players)[old(db.nextId) :=
           Player(name.value, Assign(None, Storage.ImageField(cfg, photo, upload, "players")))]
  {
    var photoField := Storage.ImageField(cfg, photo, upload, "players");
    if !Truthy(name) {
      return Err(400, "Player name is required");
    }
    var id := db.FreshId();
    var row := Player(name.value, Assign(None, photoField));
    PlayersWellFormed(db.Snapshot(), id, row);
    db.players := db.players[id := row];
    return Ok(201, Record(id));
  }

  /** The player after `player.update({ name, photo })`, the photo being the uploaded file's URL when a file came. */
  function Updated(cur: Player, cfg: Storage.Config, name: Option<string>, photo: Option<string>, upload: Option<string>): Player
  {
    Player(Assign(cur.name, name), Assign(cur.photo, Storage.ImageField(cfg, photo, upload, "players")))
  }

  /**
   * `update` skips the fields the request leaves out: a request without a
   * name keeps the name, one without a photo and a file keeps the photo, an
   * empty request keeps the player, and sending the same request again
   * changes nothing further.
   */
  lemma {:induction false} UpdateKeepsAbsentFields(cfg: Storage.Config, cur: Player, name: Option<string>,
                                                   photo: Option<string>, upload: Option<string>)
    ensures name.None? ==> Updated(cur, cfg, name, photo, upload).name == cur.name
    ensures photo.None? && upload.None? ==> Updated(cur, cfg, name, photo, upload).photo == cur.photo
    ensures name.None? && photo.None? && upload.None? ==> Updated(cur, cfg, name, photo, upload) == cur
    ensures Updated(Updated(cur, cfg, name, photo, upload), cfg, name, photo, upload) == Updated(cur, cfg, name, photo, upload)
  {
  }

  /** `PUT /api/players/:id` (admin only). Deleting the replaced photo file is storage I/O, left out. */
  method UpdatePlayer(db: Db, cfg: Storage.Config, id: Id, name: Option<string>, photo: Option<string>, upload: Option<string>)
    returns (r: Reply<Body>)
    requires db.Valid()
    modifies db`players
    ensures db.Valid()
    ensures id !in old(db.players) ==> r == Err(404, "Player not found") && unchanged(db)
    ensures id in old(db.players) ==>
      var cur := old(db.players)[id];
      && r == Ok(200, Record(id))
      && db.players == old(db.players)[id := Updated(cur, cfg, name, photo, upload)]
  {
    if id !in db.players {
      return Err(404, "Player not found");
    }
    var row := Updated(db.players[id], cfg, name, photo, upload);
    PlayersWellFormed(db.Snapshot(), id, row);
    db.players := db.players[id := row];
    return Ok(200, Record(id));
  }

  /** `DELETE /api/players/:id` (admin only): its memberships and match rows go with it. */
  method DeletePlayer(db: Db, id: Id) returns (r: Reply<Body>)
    requires db.Valid()
    modifies db
    ensures db.Valid() && db.nextId == old(db.nextId)
    ensures id !in old(db.players) ==> r == Err(404, "Player not found") && db.Snapshot() == old(db.Snapshot())
    ensures id in old(db.players) ==>
      && r == Ok(200, Message("Player deleted successfully"))
      && db.Snapshot() == Schema.DeletePlayer(old(db.Snapshot()), id)
  {
    if id !in db.players {
      return Err(404, "Player not found");
    }
    DeletePlayerWellFormed(db.Snapshot(), id);
    db.Store(Schema.DeletePlayer(db.Snapshot(), id));
    return Ok(200, Message("Player deleted successfully"));
  }

  /** A new upload always wins: the stored photo is the upload's URL, whatever the body says. */
  lemma {:induction false} UploadReplacesPhoto(cfg: Storage.Config, cur: Player, photo: Option<string>, file: string)
    requires file != ""
    ensures Assign(cur.photo, Storage.ImageField(cfg, photo, Some(file), "players")) ==
      Storage.GetFileUrl(cfg, Some(file), "players")
    ensures Assign(cur.photo, Storage.ImageField(cfg, photo, Some(file), "players")).Some?
  {
  }
}
