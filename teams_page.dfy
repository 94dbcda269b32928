/**
 * The admin's teams page: the player search of the roster dialog, the
 * controls each roster row offers, the card's roster preview and its alert
 * dot, and the quick-add guard. A roster row is a `TeamRoutes.RosterEntry`.
 */
module TeamsPage {
  import opened Common
  import opened Seqs
  import opened Strings
  import opened Schema
  import opened Pickers
  import TeamRoutes

  type RosterEntry = TeamRoutes.RosterEntry

  function PlayerOf(e: RosterEntry): Id
  {
    e.playerId
  }

  /** `filteredPlayers`: the players not on the selected team whose name includes the search text, ignoring case. */
  function FilteredPlayers(players: seq<Item>, roster: seq<RosterEntry>, search: string): (r: seq<Item>)
    ensures forall x :: x in r <==>
      && x in players
      && (forall e :: e in roster ==> e.playerId != x.id)
      && Contains(ToLower(x.name), ToLower(search))
  {
    var ids := Map(roster, PlayerOf);
    forall x: Item ensures x.id in ids <==> exists e :: e in roster && e.playerId == x.id {
      if x.id in ids {
        var k :| 0 <= k < |ids| && ids[k] == x.id;
        assert roster[k] in roster;
      }
    }
    Offered(players, ids, search)
  }

  /** What a roster row offers: approve and reject, or one remove button with its caption and state. */
  datatype Controls = ApproveReject | RemoveButton(caption: string, disabled: bool)

  /**
   * The controls of one roster row. A live remove button shows exactly on a
   * row without a pending request, whoever is signed in; approve and reject
   * show exactly to an admin facing a pending request; a non-admin always has
   * the button, captioned "Requested" exactly when the request is pending.
   */
  function RowControls(isAdmin: bool, removalRequested: bool): (r: Controls)
    ensures (r.RemoveButton? && !r.disabled) <==> !removalRequested
    ensures r == ApproveReject <==> isAdmin && removalRequested
    ensures !isAdmin ==> r.RemoveButton? && (r.caption == "Requested" <==> removalRequested)
    ensures r.RemoveButton? && isAdmin ==> r.caption == "Remove"
    ensures r.RemoveButton? && !isAdmin && !removalRequested ==> r.caption == "Request Removal"
  {
    if isAdmin && removalRequested then ApproveReject
    else RemoveButton(
      if isAdmin then "Remove" else if removalRequested then "Requested" else "Request Removal",
      removalRequested && !isAdmin)
  }

  /** The confirmation `handleRemovePlayer` asks for before it calls the removal route: message, title and style. */
  datatype Confirmation = Confirmation(message: string, title: string, variant: string)

  function RemoveConfirmation(isAdmin: bool): (r: Confirmation)
    ensures isAdmin <==> r.title == "Remove Player"
    ensures isAdmin <==> r.variant == "danger"
    ensures !isAdmin ==> r == Confirmation("Request removal of this player from the team?", "Request Removal", "warning")
  {
    if isAdmin then Confirmation("Remove this player from the team?", "Remove Player", "danger")
    else Confirmation("Request removal of this player from the team?", "Request Removal", "warning")
  }

  /**
   * A live remove button shows exactly on rows without a pending request,
   * whoever is signed in; approve and reject show only to an admin and only
   * on flagged rows; a non-admin sees "Requested" exactly on flagged rows.
   */
  lemma {:induction false} ControlsFollowRequests(role: string, e: RosterEntry)
    ensures var c := RowControls(IsAdmin(role), e.removalRequested);
      && (c.RemoveButton? && !c.disabled <==> !e.removalRequested)
      && (c == ApproveReject ==> IsAdmin(role) && e.removalRequested)
      && (!IsAdmin(role) ==> c.RemoveButton? && (c.caption == "Requested" <==> e.removalRequested))
  {
  }

  /**
   * The prompt matches what the removal route then does for the same role:
   * the "Remove Player" danger prompt exactly when the route deletes the row,
   * the "Request Removal" warning exactly when it only flags the row; no
   * other row changes either way.
   */
  lemma {:induction false} ConfirmationFollowsRoute(role: string, before: map<(Id, Id), Membership>, key: (Id, Id))
    requires key in before
    ensures var c, after := RemoveConfirmation(IsAdmin(role)), TeamRoutes.AfterRemoval(before, key, role);
      && (c.title == "Remove Player" && c.variant == "danger" <==> key !in after)
      && (c.title == "Request Removal" && c.variant == "warning" <==> key in after && after[key].removalRequested)
      && (forall k :: k in before && k != key ==> k in after && after[k] == before[k])
  {
  }

  /** The roster preview of a team card: the first five names. */
  function Preview(roster: seq<RosterEntry>): (r: seq<RosterEntry>)
    ensures |r| <= 5 && r <= roster
    ensures |roster| <= 5 ==> r == roster
  {
    if |roster| <= 5 then roster else roster[..5]
  }

  /** The "+N more" caption, shown when the roster has more than five players. */
  function MoreCount(roster: seq<RosterEntry>): (r: Option<nat>)
    ensures r.Some? <==> |roster| > 5
  {
    if |roster| > 5 then Some(|roster| - 5) else None
  }

  /** The preview and the "+N more" count together account for the whole roster. */
  lemma {:induction false} PreviewAccountsForRoster(roster: seq<RosterEntry>)
    ensures var more := MoreCount(roster);
      |Preview(roster)| + (if more.Some? then more.value else 0) == |roster|
    ensures MoreCount(roster).Some? ==> |Preview(roster)| == 5 && MoreCount(roster).value >= 1
  {
  }

  /** The card's alert dot: it shows exactly when an admin has some roster row to approve or reject. */
  function ShowsAlertDot(roster: seq<RosterEntry>): (r: bool)
    ensures r <==> exists e :: e in roster && RowControls(true, e.removalRequested) == ApproveReject
  {
    exists i :: 0 <= i < |roster| && roster[i].removalRequested
  }

  /** The dot shows exactly when some player on the roster has a pending removal request. */
  lemma {:induction false} AlertDotMeansPending(roster: seq<RosterEntry>)
    ensures ShowsAlertDot(roster) <==> exists e :: e in roster && e.removalRequested
  {
  }

  /** The team's card lists its roster as the team route returns it; its dot is the database's pending requests. */
  lemma {:induction false} AlertDotFromDatabase(t: Tables, teamId: Id)
    ensures ShowsAlertDot(TeamRoutes.Roster(t, teamId)) <==>
      exists m :: m in t.memberships && m.teamId == teamId && m.playerId in t.players && m.removalRequested
  {
    var roster := TeamRoutes.Roster(t, teamId);
    if exists m :: m in t.memberships && m.teamId == teamId && m.playerId in t.players && m.removalRequested {
      var m :| m in t.memberships && m.teamId == teamId && m.playerId in t.players && m.removalRequested;
      assert TeamRoutes.Entry(t, m) in roster;
    }
  }

  /** `handleQuickAddPlayer`'s guard: the alert for a blank name, or `None` when the player is created. */
  function QuickAddWarning(name: string): (r: Option<string>)
    ensures r.Some? <==> forall i :: 0 <= i < |name| ==> IsJsSpace(name[i])
    ensures r.Some? ==> r.value == "Please enter a player name."
  {
    TrimEmpty(name);
    if Trim(name) == "" then Some("Please enter a player name.") else None
  }

  /** A name that passes the guard also passes the create route's own check, which only refuses an empty name. */
  lemma {:induction false} QuickAddAccepted(name: string)
    requires QuickAddWarning(name).None?
    ensures Truthy(Some(name))
  {
    assert name != [];
  }
}
