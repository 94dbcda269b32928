/**
 * The `/api/matches` routes: recording a match after a fixed sequence of
 * checks, the amend rules that differ for admins and scorers, deleting a
 * match with its participant rows, and the three reads under the
 * admin-or-assigned access rule.
 *
 * The server checks each participant on its own: it requires neither exactly
 * one winner nor one player per team (the entry form does, see `MatchEntry`).
 */
module MatchRoutes {
  import opened Common
  import opened Seqs
  import opened Schema
  import opened Store
  import opened Ledger

  /** One element of the `participants` array of a request body. */
  datatype Entry = Entry(teamId: Id, playerId: Id, result: string)

  /**
   * The body of `POST /api/matches`. For `scoreboardId`, `date` and
   * `participants`, which the handler tests for truthiness, `None` stands for
   * a field that is absent or falsy; `participants` is `None` also when it is
   * not an array. `location` is stored as sent: `None` only when it is absent
   * (or null), and an empty location is `Some("")`.
   */
  datatype MatchRequest = MatchRequest(
    scoreboardId: Option<Id>,
    location: Option<string>,
    date: Option<int>,
    participants: Option<seq<Entry>>)

  /** Why a create request is turned down, one case per early return of the handler. */
  datatype Rejection =
    | MissingFields
    | NoScoreboard
    | NotAssigned
    | TeamNotInScoreboard(teamId: Id)
    | PlayerNotFound(playerId: Id)
    | NotOnTeam(playerId: Id, teamId: Id)
    | BadResult

  /** The decimal digits of a key, as the error messages interpolate it. */
  function IdText(n: nat): string
    decreases n
  {
    if n < 10 then ["0123456789"[n]] else IdText(n / 10) + ["0123456789"[n % 10]]
  }

  function RejectionReply(rej: Rejection): Reply<Body>
  {
    match rej
    case MissingFields => Err(400, "Scoreboard ID and participants are required")
    case NoScoreboard => Err(404, "Scoreboard not found")
    case NotAssigned => Err(403, "You are not assigned to this scoreboard")
    case TeamNotInScoreboard(teamId) => Err(400, "Team " + IdText(teamId) + " is not in this scoreboard")
    case PlayerNotFound(playerId) => Err(404, "Player " + IdText(playerId) + " not found")
    case NotOnTeam(playerId, teamId) =>
      Err(400, "Player " + IdText(playerId) + " does not belong to team " + IdText(teamId))
    case BadResult => Err(400, "Result must be \"win\" or \"loss\"")
  }

  /** A participant passes the per-entry checks: the player exists and is on the team, and the result is win or loss. */
  predicate ValidEntry(t: Tables, e: Entry)
  {
    e.playerId in t.players && e.teamId in t.teams && OnTeam(t, e.teamId, e.playerId) && ParseResult(e.result).Some?
  }

  /** The three per-entry checks in the handler's order. */
  function EntryRejection(t: Tables, e: Entry): (r: Option<Rejection>)
    ensures r.None? <==> ValidEntry(t, e)
    ensures r.Some? ==> r.value in {PlayerNotFound(e.playerId), NotOnTeam(e.playerId, e.teamId), BadResult}
    ensures r.Some? && e.playerId in t.players ==> r.value != PlayerNotFound(e.playerId)
  {
    if e.playerId !in t.players then Some(PlayerNotFound(e.playerId))
    else if e.teamId !in t.teams || !OnTeam(t, e.teamId, e.playerId) then Some(NotOnTeam(e.playerId, e.teamId))
    else if ParseResult(e.result).None? then Some(BadResult)
    else None
  }

  /** The first of `ids[i..]` that is not assigned to the scoreboard. */
  function FirstTeamOutside(t: Tables, scoreboardId: Id, ids: seq<Id>, i: nat): (r: Option<Id>)
    requires i <= |ids|
    decreases |ids| - i
    ensures r.None? <==> forall j :: i <= j < |ids| ==> TeamInScoreboard(t, scoreboardId, ids[j])
    ensures r.Some? ==> exists j :: (i <= j < |ids| && ids[j] == r.value && !TeamInScoreboard(t, scoreboardId, ids[j]) &&
      forall k :: i <= k < j ==> TeamInScoreboard(t, scoreboardId, ids[k]))
  {
    if i == |ids| then None
    else if !TeamInScoreboard(t, scoreboardId, ids[i]) then Some(ids[i])
    else FirstTeamOutside(t, scoreboardId, ids, i + 1)
  }

  /** The rejection of the first entry of `es[i..]` that fails a per-entry check. */
  function FirstBadEntry(t: Tables, es: seq<Entry>, i: nat): (r: Option<Rejection>)
    requires i <= |es|
    decreases |es| - i
    ensures r.None? <==> forall j :: i <= j < |es| ==> ValidEntry(t, es[j])
    ensures r.Some? ==> exists j :: (i <= j < |es| && r == EntryRejection(t, es[j]) &&
      forall k :: i <= k < j ==> ValidEntry(t, es[k]))
  {
    if i == |es| then None
    else if EntryRejection(t, es[i]).Some? then EntryRejection(t, es[i])
    else FirstBadEntry(t, es, i + 1)
  }

  /** The distinct team ids of the entries, in first-appearance order (`[...new Set(participants.map(p => p.teamId))]`). */
  function TeamIds(es: seq<Entry>): (r: seq<Id>)
    ensures forall id :: id in r <==> exists e :: e in es && e.teamId == id
  {
    var all := Map(es, (e: Entry) => e.teamId);
    assert forall e :: e in es ==> e.teamId in all by {
      forall e | e in es ensures e.teamId in all {
        var i :| 0 <= i < |es| && es[i] == e;
        assert all[i] == e.teamId;
      }
    }
    Distinct(all)
  }

  /**
   * The outcome of the checks of `POST /api/matches`, in the handler's order:
   * missing fields, the scoreboard, the caller's assignment, each distinct
   * team, then each entry in turn.
   */
  function CreateRejection(t: Tables, caller: Caller, req: MatchRequest): Option<Rejection>
  {
    if req.scoreboardId.None? || req.participants.None? || |req.participants.value| == 0 then Some(MissingFields)
    else if req.scoreboardId.value !in t.scoreboards then Some(NoScoreboard)
    else if !HasAccess(t, caller, req.scoreboardId.value) then Some(NotAssigned)
    else
      var ids := TeamIds(req.participants.value);
      match FirstTeamOutside(t, req.scoreboardId.value, ids, 0)
      case Some(teamId) => Some(TeamNotInScoreboard(teamId))
      case None => FirstBadEntry(t, req.participants.value, 0)
  }

  /** What a request must satisfy to be recorded, stated without the order of the checks. */
  predicate Acceptable(t: Tables, caller: Caller, req: MatchRequest)
  {
    && req.scoreboardId.Some? && req.participants.Some? && |req.participants.value| > 0
    && req.scoreboardId.value in t.scoreboards
    && HasAccess(t, caller, req.scoreboardId.value)
    && forall e :: e in req.participants.value ==>
         TeamInScoreboard(t, req.scoreboardId.value, e.teamId) && ValidEntry(t, e)
  }

  /** The ordered checks turn down exactly the requests that are not acceptable. */
  lemma {:induction false} CreateAccepted(t: Tables, caller: Caller, req: MatchRequest)
    ensures CreateRejection(t, caller, req).None? <==> Acceptable(t, caller, req)
  {
    if req.scoreboardId.Some? && req.participants.Some? {
      TeamsInside(t, req.scoreboardId.value, req.participants.value);
      EntriesValid(t, req.participants.value);
    }
  }

  /** Checking each distinct team id is checking the team of every entry. */
  lemma {:induction false} TeamsInside(t: Tables, scoreboardId: Id, es: seq<Entry>)
    ensures FirstTeamOutside(t, scoreboardId, TeamIds(es), 0).None? <==>
      forall e :: e in es ==> TeamInScoreboard(t, scoreboardId, e.teamId)
  {
    var ids := TeamIds(es);
    if FirstTeamOutside(t, scoreboardId, ids, 0).None? {
      forall e | e in es ensures TeamInScoreboard(t, scoreboardId, e.teamId) {
        assert e.teamId in ids;
        var j :| 0 <= j < |ids| && ids[j] == e.teamId;
      }
    } else {
      var j :| 0 <= j < |ids| && !TeamInScoreboard(t, scoreboardId, ids[j]);
      assert ids[j] in ids;
      var e :| e in es && e.teamId == ids[j];
    }
  }

  lemma {:induction false} EntriesValid(t: Tables, es: seq<Entry>)
    ensures FirstBadEntry(t, es, 0).None? <==> forall e :: e in es ==> ValidEntry(t, e)
  {
    if FirstBadEntry(t, es, 0).None? {
      forall e | e in es ensures ValidEntry(t, e) {
        var j :| 0 <= j < |es| && es[j] == e;
      }
    }
  }

  /**
   * The checks of `POST /api/matches`: two loops, over the distinct team ids
   * and then over the entries, each stopping at the first failure.
   */
  method ValidateCreateMatch(db: Db, caller: Caller, req: MatchRequest) returns (rej: Option<Rejection>)
    ensures rej == CreateRejection(db.Snapshot(), caller, req)
  {
    var t := db.Snapshot();
    if req.scoreboardId.None? || req.participants.None? || |req.participants.value| == 0 {
      return Some(MissingFields);
    }
    var sb, es := req.scoreboardId.value, req.participants.value;
    if sb !in t.scoreboards {
      return Some(NoScoreboard);
    }
    if !IsAdmin(caller.role) && !IsAssigned(t, caller.id, sb) {
      return Some(NotAssigned);
    }
    var outside := FindTeamOutside(t, sb, TeamIds(es));
    if outside.Some? {
      return Some(TeamNotInScoreboard(outside.value));
    }
    rej := FindBadEntry(t, es);
  }

  /** The loop over the distinct team ids: the first one the scoreboard does not list. */
  method FindTeamOutside(t: Tables, scoreboardId: Id, ids: seq<Id>) returns (r: Option<Id>)
    ensures r == FirstTeamOutside(t, scoreboardId, ids, 0)
  {
    var i := 0;
    while i < |ids|
      invariant i <= |ids|
      invariant FirstTeamOutside(t, scoreboardId, ids, 0) == FirstTeamOutside(t, scoreboardId, ids, i)
    {
      if !TeamInScoreboard(t, scoreboardId, ids[i]) {
        return Some(ids[i]);
      }
      i := i + 1;
    }
    return None;
  }

  /** The loop over the entries: the first failed check, player first, then membership, then result. */
  method FindBadEntry(t: Tables, es: seq<Entry>) returns (r: Option<Rejection>)
    ensures r == FirstBadEntry(t, es, 0)
  {
    var k := 0;
    while k < |es|
      invariant k <= |es|
      invariant FirstBadEntry(t, es, 0) == FirstBadEntry(t, es, k)
    {
      var e := es[k];
      if e.playerId !in t.players {
        return Some(PlayerNotFound(e.playerId));
      }
      if e.teamId !in t.teams || !OnTeam(t, e.teamId, e.playerId) {
        return Some(NotOnTeam(e.playerId, e.teamId));
      }
      if ParseResult(e.result).None? {
        return Some(BadResult);
      }
      k := k + 1;
    }
    return None;
  }

  /** The `match_participants` row `MatchParticipant.create` stores for one entry. */
  function Row(matchId: Id, e: Entry): (p: Participant)
    requires ParseResult(e.result).Some?
    ensures p.matchId == matchId && p.teamId == e.teamId && p.playerId == e.playerId
    ensures ResultName(p.result) == e.result
  {
    Participant(matchId, e.teamId, e.playerId, ParseResult(e.result).value)
  }

  /** One row per entry, in the order of the entries. */
  function Inserted(matchId: Id, es: seq<Entry>): (r: seq<Participant>)
    requires forall i :: 0 <= i < |es| ==> ParseResult(es[i].result).Some?
    ensures |r| == |es|
    ensures forall i :: 0 <= i < |r| ==> r[i] == Row(matchId, es[i])
  {
    seq(|es|, i requires 0 <= i < |es| => Row(matchId, es[i]))
  }

  /** The new rows refer to existing rows when the entries passed their checks. */
  lemma {:induction false} InsertedRefer(t: Tables, matchId: Id, es: seq<Entry>)
    requires matchId in t.matches
    requires forall e :: e in es ==> e.teamId in t.teams && e.playerId in t.players && ParseResult(e.result).Some?
    ensures forall p :: p in Inserted(matchId, es) ==> p.matchId in t.matches && p.teamId in t.teams && p.playerId in t.players
  {
    var r := Inserted(matchId, es);
    forall p | p in r ensures p.matchId in t.matches && p.teamId in t.teams && p.playerId in t.players {
      var i :| 0 <= i < |r| && r[i] == p;
      assert es[i] in es;
    }
  }

  /**
   * `POST /api/matches`. A rejected request writes nothing; an accepted one
   * stores a completed match dated `now` unless the body gives a date, and
   * one participant row per entry. The clock is the parameter `now`.
   */
  method CreateMatch(db: Db, caller: Caller, req: MatchRequest, now: int) returns (r: Reply<Body>)
    requires db.Valid()
    modifies db`matches, db`participants, db`nextId
    ensures db.Valid()
    ensures var rej := CreateRejection(old(db.Snapshot()), caller, req);
      rej.Some? ==> r == RejectionReply(rej.value) && unchanged(db)
    ensures CreateRejection(old(db.Snapshot()), caller, req).None? ==> Acceptable(old(db.Snapshot()), caller, req)
    ensures Acceptable(old(db.Snapshot()), caller, req) ==>
      && r == Ok(201, Record(old(db.nextId)))
      && db.matches == old(db.matches)[old(db.nextId) :=
           Match(req.scoreboardId.value, req.location, Assign(now, req.date), Completed, caller.id, false, None)]
      && db.participants == old(db.participants) + Inserted(old(db.nextId), req.participants.value)
  {
    CreateAccepted(db.Snapshot(), caller, req);
    var rej := ValidateCreateMatch(db, caller, req);
    if rej.Some? {
      return RejectionReply(rej.value);
    }
    var m := Match(req.scoreboardId.value, req.location, Assign(now, req.date), Completed, caller.id, false, None);
    var id := Insert(db, m, req.participants.value);
    return Ok(201, Record(id));
  }

  /** `Match.create` and then one `MatchParticipant.create` per entry, for entries that passed their checks. */
  method Insert(db: Db, m: Match, es: seq<Entry>) returns (id: Id)
    requires db.Valid() && m.scoreboardId in db.scoreboards
    requires forall e :: e in es ==> e.teamId in db.teams && e.playerId in db.players && ParseResult(e.result).Some?
    modifies db`matches, db`participants, db`nextId
    ensures db.Valid() && id == old(db.nextId) && id !in old(db.matches)
    ensures db.matches == old(db.matches)[id := m]
    ensures db.participants == old(db.participants) + Inserted(id, es)
  {
    id := db.FreshId();
    PutMatch(db, id, m);
    InsertedRefer(db.Snapshot(), id, es);
    AppendRows(db, Inserted(id, es));
  }

  /** Stores a match row under a key in use or a fresh one, keeping the invariant. */
  method PutMatch(db: Db, id: Id, m: Match)
    requires db.Valid() && m.scoreboardId in db.scoreboards && (id in db.matches || id < db.nextId)
    modifies db`matches
    ensures db.Valid() && db.matches == old(db.matches)[id := m]
  {
    MatchesWellFormed(db.Snapshot(), id, m);
    db.matches := db.matches[id := m];
  }

  /** Appends participant rows that refer to existing rows, keeping the invariant. */
  method AppendRows(db: Db, rows: seq<Participant>)
    requires db.Valid()
    requires forall p :: p in rows ==> p.matchId in db.matches && p.teamId in db.teams && p.playerId in db.players
    modifies db`participants
    ensures db.Valid() && db.participants == old(db.participants) + rows
  {
    ParticipantsWellFormed(db.Snapshot(), db.participants + rows);
    db.participants := db.participants + rows;
  }

  /** Neither the number of winners nor the teams' share of entries matters: any win/loss results are accepted. */
  lemma {:induction false} AnyResultsAccepted(t: Tables, caller: Caller, req: MatchRequest, results: seq<string>)
    requires CreateRejection(t, caller, req).None?
    requires req.participants.Some? && |results| == |req.participants.value|
    requires forall i :: 0 <= i < |results| ==> results[i] == "win" || results[i] == "loss"
    ensures var es := req.participants.value;
      CreateRejection(t, caller, req.(participants :=
        Some(seq(|es|, i requires 0 <= i < |es| => es[i].(result := results[i]))))).None?
  {
    var es := req.participants.value;
    var es' := seq(|es|, i requires 0 <= i < |es| => es[i].(result := results[i]));
    CreateAccepted(t, caller, req);
    forall e | e in es' ensures TeamInScoreboard(t, req.scoreboardId.value, e.teamId) && ValidEntry(t, e) {
      var i :| 0 <= i < |es'| && es'[i] == e;
      assert es[i] in es;
    }
    CreateAccepted(t, caller, req.(participants := Some(es')));
  }

  /** A second entry for a team, even a repeat of the same player, is accepted when it passes the per-entry checks. */
  lemma {:induction false} ExtraEntryAccepted(t: Tables, caller: Caller, req: MatchRequest, e: Entry)
    requires CreateRejection(t, caller, req).None?
    requires req.participants.Some? && ValidEntry(t, e)
    requires exists f :: f in req.participants.value && f.teamId == e.teamId
    ensures CreateRejection(t, caller, req.(participants := Some(req.participants.value + [e]))).None?
  {
    CreateAccepted(t, caller, req);
    CreateAccepted(t, caller, req.(participants := Some(req.participants.value + [e])));
  }

  /** Team membership is checked through any `team_players` row, so a pending removal does not disqualify a player. */
  lemma {:induction false} PendingRemovalStillQualifies(t: Tables, teamId: Id, playerId: Id)
    requires Membership(teamId, playerId, true) in t.memberships
    ensures OnTeam(t, teamId, playerId)
  {
    var i :| 0 <= i < |t.memberships| && t.memberships[i] == Membership(teamId, playerId, true);
    assert MembershipKey(t.memberships[i]) == (teamId, playerId);
  }

  /** The body of `PUT /api/matches/:id`; `None` is an absent field, and for `participants` also a non-array. */
  datatype UpdateRequest = UpdateRequest(
    location: Option<string>,
    date: Option<int>,
    status: Option<string>,
    participants: Option<seq<Entry>>,
    remarks: Option<string>)

  /** The edit goes ahead: the match exists, the caller may touch it, and an admin gave remarks. */
  predicate Proceeds(t: Tables, caller: Caller, id: Id, req: UpdateRequest)
  {
    id in t.matches && HasAccess(t, caller, t.matches[id].scoreboardId) && (IsAdmin(caller.role) ==> Truthy(req.remarks))
  }

  /** A participant row the database accepts: its team and player exist and its result is an enumeration value. */
  predicate Insertable(t: Tables, e: Entry)
  {
    e.teamId in t.teams && e.playerId in t.players && ParseResult(e.result).Some?
  }

  /**
   * The participant table after an admin's replacement: every row of the
   * match is destroyed, then each entry is created on its own, and those the
   * database refuses are missing.
   */
  function Replaced(t: Tables, id: Id, es: seq<Entry>): (r: seq<Participant>)
    ensures forall p :: p in r && p.matchId != id <==> p in t.participants && p.matchId != id
    ensures forall p :: p in r && p.matchId == id <==>
      exists e :: e in es && Insertable(t, e) && p == Row(id, e)
  {
    var kept := Filter(t.participants, (p: Participant) => p.matchId != id);
    var good := Filter(es, (e: Entry) => Insertable(t, e));
    var rows := Inserted(id, good);
    assert forall p :: p in rows <==> exists e :: e in es && Insertable(t, e) && p == Row(id, e) by {
      forall p | p in rows ensures exists e :: e in es && Insertable(t, e) && p == Row(id, e) {
        var i :| 0 <= i < |rows| && rows[i] == p;
        assert good[i] in good;
      }
      forall p | exists e :: e in es && Insertable(t, e) && p == Row(id, e) ensures p in rows {
        var e :| e in es && Insertable(t, e) && p == Row(id, e);
        var i :| 0 <= i < |good| && good[i] == e;
        assert rows[i] == p;
      }
    }
    kept + rows
  }

  /** The columns `match.update(updateData)` writes: an admin edit also marks the match and stores the remarks. */
  function Edited(cur: Match, req: UpdateRequest, status: Option<MatchStatus>, admin: bool): Match
  {
    cur.(location := if req.location.Some? then req.location else cur.location,
         date := Assign(cur.date, req.date),
         status := Assign(cur.status, status),
         isEdited := if admin then true else cur.isEdited,
         remarks := if admin then req.remarks else cur.remarks)
  }

  /** Some entry of an admin's participants array is a row the database refuses. */
  predicate InsertsFail(t: Tables, caller: Caller, req: UpdateRequest)
  {
    IsAdmin(caller.role) && req.participants.Some? && exists e :: e in req.participants.value && !Insertable(t, e)
  }

  /** The body gives a status outside the column's enumeration. */
  predicate BadStatus(req: UpdateRequest)
  {
    req.status.Some? && ParseMatchStatus(req.status.value).None?
  }

  /** The status the body gives, when it is an enumeration value. */
  function StatusValue(req: UpdateRequest): (r: Option<MatchStatus>)
    ensures r.Some? ==> req.status.Some? && MatchStatusName(r.value) == req.status.value
    ensures r.None? ==> req.status.None? || BadStatus(req)
  {
    if req.status.Some? then ParseMatchStatus(req.status.value) else None
  }

  /** Replaces the rows of match `id` as an admin edit does. */
  method ReplaceParticipants(db: Db, id: Id, es: seq<Entry>)
    requires db.Valid() && id in db.matches
    modifies db`participants
    ensures db.Valid() && db.participants == Replaced(old(db.Snapshot()), id, es)
  {
    var t := db.Snapshot();
    var ps := Replaced(t, id, es);
    forall p | p in ps ensures p.matchId in t.matches && p.teamId in t.teams && p.playerId in t.players {
      if p.matchId == id {
        var e :| e in es && Insertable(t, e) && p == Row(id, e);
      }
    }
    ParticipantsWellFormed(t, ps);
    db.participants := ps;
  }

  /**
   * `PUT /api/matches/:id`. A scorer's edit writes location, date and status
   * only. An admin must give remarks; the edit marks the match as edited, and
   * a participants array replaces the old rows before the match row is
   * written. A participant row or a status the database refuses ends the
   * request with 500 after the writes already made.
   */
  method UpdateMatch(db: Db, caller: Caller, id: Id, req: UpdateRequest) returns (r: Reply<Body>)
    requires db.Valid()
    modifies db`matches, db`participants
    ensures db.Valid()
    ensures id !in old(db.matches) ==> r == Err(404, "Match not found") && unchanged(db)
    ensures id in old(db.matches) && !HasAccess(old(db.Snapshot()), caller, old(db.matches)[id].scoreboardId) ==>
      r == Err(403, "Access denied") && unchanged(db)
    ensures (id in old(db.matches) && HasAccess(old(db.Snapshot()), caller, old(db.matches)[id].scoreboardId) &&
             IsAdmin(caller.role) && !Truthy(req.remarks)) ==>
      r == Err(400, "Remarks are required when an admin edits a match") && unchanged(db)
    ensures Proceeds(old(db.Snapshot()), caller, id, req) ==> Edit(old(db.Snapshot()), db.Snapshot(), caller, id, req, r)
  {
    if id !in db.matches {
      return Err(404, "Match not found");
    }
    if !IsAdmin(caller.role) && !IsAssigned(db.Snapshot(), caller.id, db.matches[id].scoreboardId) {
      return Err(403, "Access denied");
    }
    if IsAdmin(caller.role) && !Truthy(req.remarks) {
      return Err(400, "Remarks are required when an admin edits a match");
    }
    r := ApplyEdit(db, caller, id, req);
  }

  /**
   * The writes of an edit that goes ahead. The participant table is replaced
   * on an admin edit that sends an array, whatever happens next; the match
   * row is written unless a participant row or the status is refused, which
   * answers 500.
   */
  ghost predicate Edit(t: Tables, t': Tables, caller: Caller, id: Id, req: UpdateRequest, r: Reply<Body>)
    requires id in t.matches
  {
    && t' == t.(matches := t'.matches, participants := t'.participants)
    && t'.participants == (if IsAdmin(caller.role) && req.participants.Some?
                           then Replaced(t, id, req.participants.value) else t.participants)
    && if InsertsFail(t, caller, req) || BadStatus(req) then
         r == Err(500, "Failed to update match") && t'.matches == t.matches
       else
         && r == Ok(200, Record(id))
         && t'.matches == t.matches[id := Edited(t.matches[id], req, StatusValue(req), IsAdmin(caller.role))]
  }

  method ApplyEdit(db: Db, caller: Caller, id: Id, req: UpdateRequest) returns (r: Reply<Body>)
    requires db.Valid() && Proceeds(db.Snapshot(), caller, id, req)
    modifies db`matches, db`participants
    ensures db.Valid() && db.nextId == old(db.nextId)
    ensures Edit(old(db.Snapshot()), db.Snapshot(), caller, id, req, r)
  {
    var t := db.Snapshot();
    var admin := IsAdmin(caller.role);
    if admin && req.participants.Some? {
      ReplaceParticipants(db, id, req.participants.value);
      if InsertsFail(t, caller, req) {
        return Err(500, "Failed to update match");
      }
    }
    if BadStatus(req) {
      return Err(500, "Failed to update match");
    }
    PutMatch(db, id, Edited(t.matches[id], req, StatusValue(req), admin));
    return Ok(200, Record(id));
  }

  /** A scorer's edit never marks the match as edited and keeps its remarks and participants. */
  lemma {:induction false} ScorerEditKeepsMarks(cur: Match, req: UpdateRequest, status: Option<MatchStatus>)
    ensures Edited(cur, req, status, false).isEdited == cur.isEdited
    ensures Edited(cur, req, status, false).remarks == cur.remarks
    ensures Edited(cur, req, status, false).scoreboardId == cur.scoreboardId
  {
  }

  /** `DELETE /api/matches/:id`: the same 404 and 403 as the edit, then the match and its rows go. */
  method DeleteMatch(db: Db, caller: Caller, id: Id) returns (r: Reply<Body>)
    requires db.Valid()
    modifies db
    ensures db.Valid() && db.nextId == old(db.nextId)
    ensures id !in old(db.matches) ==> r == Err(404, "Match not found") && db.Snapshot() == old(db.Snapshot())
    ensures id in old(db.matches) && !HasAccess(old(db.Snapshot()), caller, old(db.matches)[id].scoreboardId) ==>
      r == Err(403, "Access denied") && db.Snapshot() == old(db.Snapshot())
    ensures id in old(db.matches) && HasAccess(old(db.Snapshot()), caller, old(db.matches)[id].scoreboardId) ==>
      && r == Ok(200, Message("Match deleted successfully"))
      && db.Snapshot() == Schema.DeleteMatch(old(db.Snapshot()), id)
  {
    if id !in db.matches {
      return Err(404, "Match not found");
    }
    if !IsAdmin(caller.role) && !IsAssigned(db.Snapshot(), caller.id, db.matches[id].scoreboardId) {
      return Err(403, "Access denied");
    }
    DeleteMatchWellFormed(db.Snapshot(), id);
    db.Store(Schema.DeleteMatch(db.Snapshot(), id));
    return Ok(200, Message("Match deleted successfully"));
  }

  /** `GET /api/matches/:id`. */
  function GetMatch(t: Tables, caller: Caller, id: Id): (r: Reply<MatchView>)
    ensures r.Ok? <==> id in t.matches && HasAccess(t, caller, t.matches[id].scoreboardId)
    ensures r.Ok? ==> r.value == View(t, id) && r.value.participants == ParticipantsOf(t, id)
    ensures id !in t.matches ==> r == Err(404, "Match not found")
    ensures id in t.matches && r.Err? ==> r == Err(403, "Access denied")
  {
    if id !in t.matches then Err(404, "Match not found")
    else if !HasAccess(t, caller, t.matches[id].scoreboardId) then Err(403, "Access denied")
    else Ok(200, View(t, id))
  }

  function OnBoard(scoreboardId: Id): Match -> bool
  {
    (m: Match) => m.scoreboardId == scoreboardId
  }

  /** `GET /api/matches/scoreboard/:scoreboardId`: every match of the scoreboard, newest first. */
  function ScoreboardMatches(t: Tables, caller: Caller, scoreboardId: Id): (r: Reply<seq<MatchView>>)
    ensures r.Ok? <==> scoreboardId in t.scoreboards && HasAccess(t, caller, scoreboardId)
    ensures scoreboardId !in t.scoreboards ==> r == Err(404, "Scoreboard not found")
    ensures scoreboardId in t.scoreboards && r.Err? ==> r == Err(403, "Access denied")
    ensures r.Ok? ==> forall i :: 0 <= i < |r.value| ==> r.value[i].row.scoreboardId == scoreboardId
    ensures r.Ok? ==> forall id :: (exists i :: 0 <= i < |r.value| && r.value[i].id == id) <==>
      id in t.matches && t.matches[id].scoreboardId == scoreboardId
    ensures r.Ok? ==> forall i, j :: 0 <= i < j < |r.value| ==> r.value[i].row.date >= r.value[j].row.date
  {
    if scoreboardId !in t.scoreboards then Err(404, "Scoreboard not found")
    else if !HasAccess(t, caller, scoreboardId) then Err(403, "Access denied")
    else
      var keep := OnBoard(scoreboardId);
      var listed := NewestMatches(t, keep);
      assert forall id :: id in t.matches ==> (keep(t.matches[id]) <==> t.matches[id].scoreboardId == scoreboardId);
      Ok(200, listed)
  }

  /** Every match the scoreboard listing shows the caller can also be read on its own. */
  lemma {:induction false} ListedMatchReadable(t: Tables, caller: Caller, scoreboardId: Id, i: nat)
    requires ScoreboardMatches(t, caller, scoreboardId).Ok?
    requires i < |ScoreboardMatches(t, caller, scoreboardId).value|
    ensures GetMatch(t, caller, ScoreboardMatches(t, caller, scoreboardId).value[i].id) ==
      Ok(200, ScoreboardMatches(t, caller, scoreboardId).value[i])
  {
    var v := ScoreboardMatches(t, caller, scoreboardId).value[i];
    assert v.id in t.matches && v == View(t, v.id);
  }

  /** `GET /api/matches/my-matches`: the matches the caller recorded, newest first. */
  function MyMatches(t: Tables, caller: Caller): (r: seq<MatchView>)
    ensures forall id :: (exists i :: 0 <= i < |r| && r[i].id == id) <==> id in t.matches && t.matches[id].createdBy == caller.id
    ensures forall i, j :: 0 <= i < j < |r| ==> r[i].row.date >= r[j].row.date
  {
    var keep := (m: Match) => m.createdBy == caller.id;
    var r := NewestMatches(t, keep);
    assert forall id :: id in t.matches ==> (keep(t.matches[id]) <==> t.matches[id].createdBy == caller.id);
    r
  }
}
