/**
 * The `/api/auth` routes over the `users` table: open registration with a
 * default role, login, the admin's list of scorers and the admin's user
 * update. Password hashing (a model hook) and password checking are not
 * visible here: they are the parameters `hash` and `validate`. Token signing
 * is left out; a successful login or registration yields the user's id.
 */
module AuthRoutes {
  import opened Common
  import opened Seqs
  import opened Ordering
  import opened Schema
  import opened Store

  /** A user row with its primary key. */
  datatype Listed = Listed(id: Id, row: User)

  /** The first of `ids` whose user has the e-mail address. */
  function FirstWithEmail(t: Tables, ids: seq<Id>, email: string): (r: Option<Id>)
    requires forall i :: 0 <= i < |ids| ==> ids[i] in t.users
    ensures r.Some? ==> r.value in ids && r.value in t.users && t.users[r.value].email == email
    ensures r.None? <==> forall i :: 0 <= i < |ids| ==> t.users[ids[i]].email != email
  {
    if ids == [] then None
    else if t.users[ids[0]].email == email then Some(ids[0])
    else
      var r := FirstWithEmail(t, ids[1..], email);
      assert forall i :: 1 <= i < |ids| ==> ids[i] == ids[1..][i - 1];
      r
  }

  /** `User.findOne({ where: { email } })`. */
  function UserByEmail(t: Tables, email: string): (r: Option<Id>)
    ensures r.Some? ==> r.value in t.users && t.users[r.value].email == email
    ensures r.None? <==> forall u :: u in t.users ==> t.users[u].email != email
  {
    var ids := Ascending(t.users.Keys);
    assert forall i :: 0 <= i < |ids| ==> ids[i] in t.users;
    var r := FirstWithEmail(t, ids, email);
    assert r.None? ==> forall u :: u in t.users ==> exists i :: 0 <= i < |ids| && ids[i] == u;
    r
  }

  /** With unique e-mail addresses the lookup finds the one user that has it. */
  lemma {:induction false} UserByEmailUnique(t: Tables, id: Id)
    requires WellFormed(t) && id in t.users && t.users[id].email != ""
    ensures UserByEmail(t, t.users[id].email) == Some(id)
  {
  }

  /** Stores a user row whose non-empty address no other user has, keeping the invariant. */
  method PutUser(db: Db, id: Id, row: User)
    requires db.Valid() && (id in db.users || id < db.nextId)
    requires row.email != "" ==> forall u :: u in db.users && u != id ==> db.users[u].email != row.email
    modifies db`users
    ensures db.Valid() && db.users == old(db.users)[id := row]
  {
    UsersWellFormed(db.Snapshot(), id, row);
    db.users := db.users[id := row];
  }

  /**
   * `POST /api/auth/register`. No authentication is required, and the role is
   * stored as sent, `"scorer"` when the body has none.
   */
  method Register(db: Db, hash: string -> string, email: Option<string>, password: Option<string>,
                  name: Option<string>, role: Option<string>)
    returns (r: Reply<Body>)
    requires db.Valid()
    modifies db`users, db`nextId
    ensures db.Valid()
    ensures !Truthy(email) || !Truthy(password) ==> r == Err(400, "Email and password are required") && unchanged(db)
    ensures Truthy(email) && Truthy(password) && UserByEmail(old(db.Snapshot()), email.value).Some? ==>
      r == Err(400, "User already exists") && unchanged(db)
    ensures Truthy(email) && Truthy(password) && UserByEmail(old(db.Snapshot()), email.value).None? ==>
      && r == Ok(201, Record(old(db.nextId)))
      && db.users == old(db.users)[old(db.nextId) :=
           User(email.value, hash(password.value), name, if Truthy(role) then role.value else "scorer")]
  {
    if !Truthy(email) || !Truthy(password) {
      return Err(400, "Email and password are required");
    }
    if UserByEmail(db.Snapshot(), email.value).Some? {
      return Err(400, "User already exists");
    }
    var id := db.FreshId();
    PutUser(db, id, User(email.value, hash(password.value), name, if Truthy(role) then role.value else "scorer"));
    return Ok(201, Record(id));
  }

  /**
   * `POST /api/auth/login`: an unknown address and a wrong password give the
   * same answer. `validate(stored, given)` is the model's password check.
   */
  function Login(t: Tables, validate: (string, string) -> bool, email: Option<string>, password: Option<string>)
    : (r: Reply<Id>)
    ensures !Truthy(email) || !Truthy(password) ==> r == Err(400, "Email and password are required")
    ensures r.Ok? <==>
      (Truthy(email) && Truthy(password) && UserByEmail(t, email.value).Some? &&
       validate(t.users[UserByEmail(t, email.value).value].password, password.value))
    ensures r.Ok? ==> r.value in t.users && t.users[r.value].email == email.value
    ensures Truthy(email) && Truthy(password) && r.Err? ==> r == Err(401, "Invalid credentials")
  {
    if !Truthy(email) || !Truthy(password) then Err(400, "Email and password are required")
    else match UserByEmail(t, email.value)
      case None => Err(401, "Invalid credentials")
      case Some(id) =>
        if validate(t.users[id].password, password.value) then Ok(200, id)
        else Err(401, "Invalid credentials")
  }

  function Rows(t: Tables, ids: seq<Id>): (r: seq<Listed>)
    requires forall i :: 0 <= i < |ids| ==> ids[i] in t.users
    ensures |r| == |ids|
    ensures forall i :: 0 <= i < |r| ==> r[i] == Listed(ids[i], t.users[ids[i]])
  {
    seq(|ids|, i requires 0 <= i < |ids| => Listed(ids[i], t.users[ids[i]]))
  }

  /** The users whose role is exactly `"scorer"`, in ascending key order. */
  function ScorerIds(t: Tables): (r: seq<Id>)
    ensures forall i :: 0 <= i < |r| ==> r[i] in t.users && t.users[r[i]].role == "scorer"
    ensures forall id :: id in r <==> id in t.users && t.users[id].role == "scorer"
    ensures forall i, j :: 0 <= i < j < |r| ==> r[i] < r[j]
  {
    var all := Ascending(t.users.Keys);
    FilterIncreasing(all, (id: Id) => id in t.users && t.users[id].role == "scorer");
    Filter(all, (id: Id) => id in t.users && t.users[id].role == "scorer")
  }

  /** The `users` rows whose role is exactly `"scorer"`, each once. */
  function ScorerRows(t: Tables): (r: seq<Listed>)
    ensures forall id :: (exists i :: 0 <= i < |r| && r[i].id == id) <==> id in t.users && t.users[id].role == "scorer"
    ensures forall i :: 0 <= i < |r| ==> r[i].id in t.users && r[i].row == t.users[r[i].id]
    ensures forall i, j :: 0 <= i < j < |r| ==> r[i].id != r[j].id
  {
    var ids := ScorerIds(t);
    var rows := Rows(t, ids);
    RowsOfIds(t, ids, rows);
    rows
  }

  /** `GET /api/auth/users`: 403 for anyone but an admin. */
  function ListUsers(t: Tables, caller: Caller): (r: Reply<seq<Listed>>)
    ensures !IsAdmin(caller.role) ==> r == Err(403, "Access denied")
    ensures IsAdmin(caller.role) ==> r == Ok(200, ScorerRows(t))
  {
    if !IsAdmin(caller.role) then Err(403, "Access denied") else Ok(200, ScorerRows(t))
  }

  lemma {:induction false} RowsOfIds(t: Tables, ids: seq<Id>, rows: seq<Listed>)
    requires forall i :: 0 <= i < |ids| ==> ids[i] in t.users
    requires forall i, j :: 0 <= i < j < |ids| ==> ids[i] < ids[j]
    requires |rows| == |ids| && forall i :: 0 <= i < |rows| ==> rows[i] == Listed(ids[i], t.users[ids[i]])
    ensures forall id :: (exists i :: 0 <= i < |rows| && rows[i].id == id) <==> id in ids
    ensures forall i :: 0 <= i < |rows| ==> rows[i].id in t.users && rows[i].row == t.users[rows[i].id]
    ensures forall i, j :: 0 <= i < j < |rows| ==> rows[i].id != rows[j].id
  {
    forall id | id in ids ensures exists i :: 0 <= i < |rows| && rows[i].id == id {
      var i :| 0 <= i < |ids| && ids[i] == id;
      assert rows[i].id == id;
    }
  }

  /** `updateData` of `PUT /api/auth/users/:id`: the password only when a non-empty one is sent. */
  function Edited(cur: User, hash: string -> string, name: Option<string>, email: Option<string>, password: Option<string>)
    : (r: User)
    ensures r.role == cur.role
    ensures Truthy(password) ==> r.password == hash(password.value)
    ensures !Truthy(password) ==> r.password == cur.password
    ensures r.email == Assign(cur.email, email) && r.name == (if name.Some? then name else cur.name)
  {
    User(Assign(cur.email, email), if Truthy(password) then hash(password.value) else cur.password,
         if name.Some? then name else cur.name, cur.role)
  }

  /** `PUT /api/auth/users/:id`: the address is checked for uniqueness only when it is given and changed. */
  method UpdateUser(db: Db, hash: string -> string, caller: Caller, id: Id,
                    name: Option<string>, email: Option<string>, password: Option<string>)
    returns (r: Reply<Body>)
    requires db.Valid()
    modifies db`users
    ensures db.Valid()
    ensures !IsAdmin(caller.role) ==> r == Err(403, "Access denied") && unchanged(db)
    ensures IsAdmin(caller.role) && id !in old(db.users) ==> r == Err(404, "User not found") && unchanged(db)
    ensures IsAdmin(caller.role) && id in old(db.users) ==>
      var cur := old(db.users)[id];
      if Truthy(email) && email.value != cur.email && UserByEmail(old(db.Snapshot()), email.value).Some? then
        r == Err(400, "Email already in use") && unchanged(db)
      else
        && r == Ok(200, Message("User updated successfully"))
        && db.users == old(db.users)[id := Edited(cur, hash, name, email, password)]
  {
    if !IsAdmin(caller.role) {
      return Err(403, "Access denied");
    }
    if id !in db.users {
      return Err(404, "User not found");
    }
    var cur := db.users[id];
    if Truthy(email) && email.value != cur.email && UserByEmail(db.Snapshot(), email.value).Some? {
      return Err(400, "Email already in use");
    }
    var row := Edited(cur, hash, name, email, password);
    EditedEmailFree(db.Snapshot(), id, email, row);
    PutUser(db, id, row);
    return Ok(200, Message("User updated successfully"));
  }

  /** An edit that passed the uniqueness check leaves no other user with the row's non-empty address. */
  lemma {:induction false} EditedEmailFree(t: Tables, id: Id, email: Option<string>, row: User)
    requires WellFormed(t) && id in t.users && row.email == Assign(t.users[id].email, email)
    requires !(Truthy(email) && email.value != t.users[id].email && UserByEmail(t, email.value).Some?)
    ensures row.email != "" ==> forall u :: u in t.users && u != id ==> t.users[u].email != row.email
  {
  }
}
