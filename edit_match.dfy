/**
 * The admin's edit-match form: the participant list and remarks loaded from
 * a match, the result toggle, and the checks made before the edit is sent
 * to the update route. The location, date and display names are left out;
 * a refused submission is returned as its alert text.
 */
module EditMatch {
  import opened Common
  import opened Seqs
  import opened Schema
  import opened Ledger
  import MatchEntry
  import MatchRoutes

  type Entry = MatchEntry.Entry

  function FormEntry(p: Participant): Entry
  {
    MatchEntry.Entry(p.teamId, p.playerId, p.result)
  }

  /** The form's participants as loaded: one entry per row, with the row's team, player and result. */
  function Loaded(ps: seq<Participant>): (r: seq<Entry>)
    ensures |r| == |ps|
    ensures forall i :: 0 <= i < |r| ==>
      r[i].teamId == ps[i].teamId && r[i].playerId == ps[i].playerId && r[i].result == ps[i].result
  {
    Map(ps, FormEntry)
  }

  /** The entry after `handleResultToggle(playerId, result)`. */
  function ToggleOne(p: Entry, playerId: Id, result: Result): Entry
  {
    if p.playerId == playerId then p.(result := result)
    else if result == Win then p.(result := Loss)
    else p
  }

  /**
   * The participant list after `handleResultToggle(playerId, result)`: the
   * player's entries take the result, and a win makes every other entry a
   * loss; teams, players and order are kept.
   */
  function Toggled(ps: seq<Entry>, playerId: Id, result: Result): (r: seq<Entry>)
    ensures |r| == |ps|
    ensures forall i :: 0 <= i < |r| ==> r[i].teamId == ps[i].teamId && r[i].playerId == ps[i].playerId
    ensures forall i :: 0 <= i < |r| && ps[i].playerId == playerId ==> r[i].result == result
    ensures result == Win ==> forall i :: 0 <= i < |r| && ps[i].playerId != playerId ==> r[i].result == Loss
    ensures result == Loss ==> forall i :: 0 <= i < |r| && ps[i].playerId != playerId ==> r[i] == ps[i]
  {
    Map(ps, (p: Entry) => ToggleOne(p, playerId, result))
  }

  /** Toggling the same choice twice is the same as toggling it once. */
  lemma {:induction false} ToggledIdempotent(ps: seq<Entry>, playerId: Id, result: Result)
    ensures Toggled(Toggled(ps, playerId, result), playerId, result) == Toggled(ps, playerId, result)
  {
    var once := Toggled(ps, playerId, result);
    var twice := Toggled(once, playerId, result);
    forall i | 0 <= i < |ps| ensures twice[i] == once[i] {
      if ps[i].playerId != playerId && result == Loss {
        assert once[i] == ps[i];
      }
    }
  }

  /** Marking the one entry of a player as winner leaves exactly one winner. */
  lemma {:induction false} ToggledWinner(ps: seq<Entry>, k: nat)
    requires k < |ps| && forall i :: 0 <= i < |ps| && i != k ==> ps[i].playerId != ps[k].playerId
    ensures MatchEntry.Winners(Toggled(ps, ps[k].playerId, Win)) == 1
  {
    var r := Toggled(ps, ps[k].playerId, Win);
    assert r == r[..k] + [r[k]] + r[k + 1..];
    assert forall x :: x in r[..k] || x in r[k + 1..] ==> !MatchEntry.IsWinner()(x);
    CountAppend(r[..k], [r[k]], MatchEntry.IsWinner());
    CountAppend(r[..k] + [r[k]], r[k + 1..], MatchEntry.IsWinner());
    assert Filter([r[k]], MatchEntry.IsWinner()) == [r[k]];
  }

  /** The alert `handleSubmit` raises, or `None` when the edit is sent. */
  function EditWarning(remarks: string, ps: seq<Entry>): (r: Option<string>)
    ensures r.None? <==> remarks != "" && MatchEntry.Winners(ps) == 1
    ensures remarks == "" ==> r == Some("Remarks are required for admin edits.")
  {
    if remarks == "" then Some("Remarks are required for admin edits.")
    else if MatchEntry.Winners(ps) != 1 then Some("A match must have exactly one winner.")
    else None
  }

  /** The participants array the form sends, with results spelled as the route expects them. */
  function Posted(ps: seq<Entry>): (r: seq<MatchRoutes.Entry>)
    ensures |r| == |ps|
    ensures forall i :: 0 <= i < |r| ==>
      r[i].teamId == ps[i].teamId && r[i].playerId == ps[i].playerId && ParseResult(r[i].result) == Some(ps[i].result)
  {
    Map(ps, (p: Entry) => MatchRoutes.Entry(p.teamId, p.playerId, ResultName(p.result)))
  }

  /** The form state of the edit page. */
  class EditForm {
    var participants: seq<Entry>
    var location: string
    var remarks: string

    constructor ()
      ensures participants == [] && location == "" && remarks == ""
    {
      participants := [];
      location := "";
      remarks := "";
    }

    /** `fetchMatch`: fills the form from the match, absent location and remarks as empty text. */
    method Load(v: MatchView)
      modifies this
      ensures participants == Loaded(v.participants)
      ensures location == (if v.row.location.Some? then v.row.location.value else "")
      ensures remarks == (if v.row.remarks.Some? then v.row.remarks.value else "")
    {
      participants := Loaded(v.participants);
      location := if v.row.location.Some? then v.row.location.value else "";
      remarks := if v.row.remarks.Some? then v.row.remarks.value else "";
    }

    method ToggleResult(playerId: Id, result: Result)
      modifies this`participants
      ensures participants == Toggled(old(participants), playerId, result)
    {
      participants := Toggled(participants, playerId, result);
    }

    /** `handleSubmit`: the alert, or `None` when the edit is sent. */
    method Submit() returns (warning: Option<string>)
      ensures warning == EditWarning(remarks, participants)
    {
      if remarks == "" {
        return Some("Remarks are required for admin edits.");
      }
      if MatchEntry.Winners(participants) != 1 {
        return Some("A match must have exactly one winner.");
      }
      return None;
    }
  }

  /** Entries whose team and player exist. */
  predicate Resolvable(t: Tables, ps: seq<Entry>)
  {
    forall i :: 0 <= i < |ps| ==> ps[i].teamId in t.teams && ps[i].playerId in t.players
  }

  /** A form loaded from a match of a well-formed database refers to existing teams and players. */
  lemma {:induction false} LoadedResolvable(t: Tables, id: Id)
    requires WellFormed(t) && id in t.matches
    ensures Resolvable(t, Loaded(ParticipantsOf(t, id)))
  {
    var rows := ParticipantsOf(t, id);
    forall i | 0 <= i < |rows| ensures rows[i].teamId in t.teams && rows[i].playerId in t.players {
      assert rows[i] in rows;
    }
  }

  /**
   * Toggling keeps the entries resolvable, and the array posted from
   * resolvable entries holds only rows the database accepts, so an admin's
   * edit sent from this form never loses participant rows.
   */
  lemma {:induction false} PostedInsertable(t: Tables, ps: seq<Entry>, playerId: Id, result: Result)
    requires Resolvable(t, ps)
    ensures Resolvable(t, Toggled(ps, playerId, result))
    ensures forall e :: e in Posted(ps) ==> MatchRoutes.Insertable(t, e)
  {
    var posted := Posted(ps);
    forall e | e in posted ensures MatchRoutes.Insertable(t, e) {
      var i :| 0 <= i < |posted| && posted[i] == e;
    }
  }
}
