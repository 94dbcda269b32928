/**
 * The scorer's match-entry form. Its state is the list of selected teams and
 * the participant list that is posted to the create-match route; the
 * handlers replace those two fields. The form keeps at most one participant
 * per team and at most one winner, and refuses to submit unless every
 * selected team has its participant and exactly one of them won. The
 * location and date fields, the step indicator and the notifications are
 * left out; a warning is returned as its message.
 */
module MatchEntry {
  import opened Common
  import opened Seqs
  import opened Ordering
  import opened Schema

  /** One `{ teamId, playerId, result }` of `formData.participants`. */
  datatype Entry = Entry(teamId: Id, playerId: Id, result: Result)

  function IsWinner(): Entry -> bool
  {
    (p: Entry) => p.result == Win
  }

  function Winners(ps: seq<Entry>): nat
  {
    Count(ps, IsWinner())
  }

  predicate OnePerTeam(ps: seq<Entry>)
  {
    forall i, j :: 0 <= i < j < |ps| ==> ps[i].teamId != ps[j].teamId
  }

  /** `participants.filter(p => p.teamId !== teamId)`. */
  function WithoutTeam(ps: seq<Entry>, teamId: Id): (r: seq<Entry>)
    ensures forall p :: p in r <==> p in ps && p.teamId != teamId
  {
    Filter(ps, (p: Entry) => p.teamId != teamId)
  }

  function AsLoss(p: Entry): Entry
  {
    p.(result := Loss)
  }

  /** `participants.map(p => ({ ...p, result: 'loss' }))`. */
  function AllLoss(ps: seq<Entry>): (r: seq<Entry>)
    ensures Winners(r) == 0
  {
    var r := Map(ps, AsLoss);
    assert forall p :: p in r ==> !IsWinner()(p);
    r
  }

  /**
   * The participant list after `handleAddParticipant(teamId, playerId, result)`:
   * the team's previous entries are dropped, a win turns every other entry
   * into a loss, and the new entry is appended.
   */
  function Added(ps: seq<Entry>, teamId: Id, playerId: Id, result: Result): (r: seq<Entry>)
    ensures var kept := WithoutTeam(ps, teamId);
      && |r| == |kept| + 1
      && r[|r| - 1] == Entry(teamId, playerId, result)
      && (forall i :: 0 <= i < |kept| ==> r[i].teamId == kept[i].teamId && r[i].playerId == kept[i].playerId)
      && (result == Loss ==> forall i :: 0 <= i < |kept| ==> r[i] == kept[i])
      && (result == Win ==> forall i :: 0 <= i < |kept| ==> r[i].result == Loss)
  {
    var kept := WithoutTeam(ps, teamId);
    (if result == Win then AllLoss(kept) else kept) + [Entry(teamId, playerId, result)]
  }

  /** After adding, the new entry is the only one of its team. */
  lemma {:induction false} AddedOnlyEntryOfTeam(ps: seq<Entry>, teamId: Id, playerId: Id, result: Result)
    ensures var r := Added(ps, teamId, playerId, result);
      forall i :: 0 <= i < |r| && r[i].teamId == teamId ==> i == |r| - 1
  {
    var kept := WithoutTeam(ps, teamId);
    var r := Added(ps, teamId, playerId, result);
    forall i | 0 <= i < |kept| ensures r[i].teamId != teamId {
      assert kept[i] in kept;
    }
  }

  /** Adding keeps one entry per team. */
  lemma {:induction false} AddedOnePerTeam(ps: seq<Entry>, teamId: Id, playerId: Id, result: Result)
    requires OnePerTeam(ps)
    ensures OnePerTeam(Added(ps, teamId, playerId, result))
  {
    var kept := WithoutTeam(ps, teamId);
    FilterPairwise(ps, (p: Entry) => p.teamId != teamId, (a: Entry, b: Entry) => a.teamId != b.teamId);
    AddedOnlyEntryOfTeam(ps, teamId, playerId, result);
  }

  /** A win leaves exactly one winner; a loss never adds one. */
  lemma {:induction false} AddedWinners(ps: seq<Entry>, teamId: Id, playerId: Id, result: Result)
    ensures result == Win ==> Winners(Added(ps, teamId, playerId, result)) == 1
    ensures result == Loss ==> Winners(Added(ps, teamId, playerId, result)) <= Winners(ps)
  {
    var keep := (p: Entry) => p.teamId != teamId;
    var kept := WithoutTeam(ps, teamId);
    var last := [Entry(teamId, playerId, result)];
    assert Winners(last) == (if result == Win then 1 else 0) by {
      assert Filter(last, IsWinner()) == if result == Win then last else [];
    }
    if result == Win {
      CountAppend(AllLoss(kept), last, IsWinner());
    } else {
      CountAppend(kept, last, IsWinner());
      var both := (p: Entry) => keep(p) && IsWinner()(p);
      FilterTwice(ps, keep, IsWinner(), both);
      FilterWeaker(ps, both, IsWinner());
    }
  }

  /** The first participant of the team, as `participants.find(p => p.teamId === teamId)` gives it. */
  function FindTeam(ps: seq<Entry>, teamId: Id): (r: Option<Entry>)
    ensures r.Some? ==> r.value in ps && r.value.teamId == teamId
    ensures r.None? <==> forall p :: p in ps ==> p.teamId != teamId
  {
    if ps == [] then None
    else if ps[0].teamId == teamId then Some(ps[0])
    else FindTeam(ps[1..], teamId)
  }

  /** The warning `handleSubmit` raises, checked in this order, or `None` when the form is posted. */
  function SubmitWarning(selectedTeams: seq<Id>, ps: seq<Entry>): (r: Option<string>)
    ensures r.None? <==> |selectedTeams| >= 2 && |ps| == |selectedTeams| && Winners(ps) == 1
    ensures |selectedTeams| < 2 ==> r == Some("Please select at least 2 teams.")
  {
    if |selectedTeams| < 2 then Some("Please select at least 2 teams.")
    else if |ps| != |selectedTeams| then Some("Please select one player for each team.")
    else if Winners(ps) != 1 then Some("Please select exactly one winner.")
    else None
  }

  /** Every participant belongs to a selected team. */
  predicate Covered(selectedTeams: seq<Id>, ps: seq<Entry>)
  {
    forall p :: p in ps ==> p.teamId in selectedTeams
  }

  /** The elements of `s` as a set; without repetitions there are as many as `s` is long. */
  function Elements(s: seq<Id>): (r: set<Id>)
    ensures forall x :: x in r <==> x in s
    ensures NoDuplicates(s) ==> |r| == |s|
  {
    if s == [] then {}
    else
      var rest := Elements(s[1..]);
      assert forall x :: x in s <==> x == s[0] || x in s[1..] by {
        assert s == [s[0]] + s[1..];
      }
      NoDuplicatesTail(s);
      {s[0]} + rest
  }

  lemma {:induction false} NoDuplicatesTail(s: seq<Id>)
    requires s != []
    ensures NoDuplicates(s) ==> NoDuplicates(s[1..]) && s[0] !in s[1..]
  {
    if NoDuplicates(s) {
      forall i, j | 0 <= i < j < |s[1..]| ensures s[1..][i] != s[1..][j] {
        assert s[1..][i] == s[i + 1] && s[1..][j] == s[j + 1];
      }
      forall k | 0 <= k < |s[1..]| ensures s[1..][k] != s[0] {
        assert s[1..][k] == s[k + 1];
      }
    }
  }

  /** A subset as large as its superset is the whole of it. */
  lemma {:induction false} SubsetSameSize(a: set<Id>, b: set<Id>)
    requires a <= b && |a| == |b|
    ensures a == b
  {
    assert |b - a| == |b| - |a|;
  }

  /**
   * A form that passes the submit checks, with distinct selected teams, one
   * participant per team and no participant outside the selection, posts
   * exactly one participant for each selected team and exactly one winner.
   */
  lemma {:induction false} SubmittedFormComplete(selectedTeams: seq<Id>, ps: seq<Entry>)
    requires NoDuplicates(selectedTeams) && OnePerTeam(ps) && Covered(selectedTeams, ps)
    requires SubmitWarning(selectedTeams, ps).None?
    ensures forall t :: t in selectedTeams ==> exists i :: 0 <= i < |ps| && ps[i].teamId == t
    ensures Winners(ps) == 1 && |ps| >= 2
  {
    var teams := Map(ps, (p: Entry) => p.teamId);
    var used := Elements(teams);
    var all := Elements(selectedTeams);
    assert used <= all by {
      forall x | x in used ensures x in all {
        var i :| 0 <= i < |teams| && teams[i] == x;
        assert ps[i] in ps;
      }
    }
    SubsetSameSize(used, all);
    forall t | t in selectedTeams ensures exists i :: 0 <= i < |ps| && ps[i].teamId == t {
      assert t in all;
      assert t in used;
      var i :| 0 <= i < |teams| && teams[i] == t;
      assert ps[i].teamId == t;
    }
  }

  /** The component state of the match-entry page that the participant rules act on. */
  class Form {
    var selectedTeams: seq<Id>
    var participants: seq<Entry>

    ghost predicate Valid()
      reads this
    {
      NoDuplicates(selectedTeams) && OnePerTeam(participants) && Winners(participants) <= 1
    }

    constructor ()
      ensures Valid() && selectedTeams == [] && participants == []
    {
      selectedTeams := [];
      participants := [];
    }

    /** `handleTeamToggle`: deselecting drops the team and its participants, selecting appends it. */
    method ToggleTeam(teamId: Id)
      requires Valid()
      modifies this
      ensures Valid()
      ensures old(Covered(selectedTeams, participants)) ==> Covered(selectedTeams, participants)
      ensures teamId in old(selectedTeams) ==>
        && selectedTeams == Filter(old(selectedTeams), (id: Id) => id != teamId)
        && participants == WithoutTeam(old(participants), teamId)
      ensures teamId !in old(selectedTeams) ==>
        selectedTeams == old(selectedTeams) + [teamId] && participants == old(participants)
    {
      if teamId in selectedTeams {
        var keep := (id: Id) => id != teamId;
        var keepEntry := (p: Entry) => p.teamId != teamId;
        FilterPairwise(selectedTeams, keep, (a: Id, b: Id) => a != b);
        FilterPairwise(participants, keepEntry, (a: Entry, b: Entry) => a.teamId != b.teamId);
        FilterWeaker(participants, (p: Entry) => keepEntry(p) && IsWinner()(p), IsWinner());
        FilterTwice(participants, keepEntry, IsWinner(), (p: Entry) => keepEntry(p) && IsWinner()(p));
        selectedTeams := Filter(selectedTeams, keep);
        participants := WithoutTeam(participants, teamId);
      } else {
        selectedTeams := selectedTeams + [teamId];
      }
    }

    /** `handleAddParticipant`. */
    method AddParticipant(teamId: Id, playerId: Id, result: Result)
      requires Valid()
      modifies this`participants
      ensures Valid()
      ensures participants == Added(old(participants), teamId, playerId, result)
      ensures result == Win ==> Winners(participants) == 1
      ensures old(Covered(selectedTeams, participants)) && teamId in selectedTeams ==> Covered(selectedTeams, participants)
    {
      AddedOnePerTeam(participants, teamId, playerId, result);
      AddedWinners(participants, teamId, playerId, result);
      participants := Added(participants, teamId, playerId, result);
    }

    /** `handleAutoFillTeam`: marks the team's chosen player with `result`, or warns when it has none. */
    method AutoFillTeam(teamId: Id, result: Result) returns (warning: Option<string>)
      requires Valid()
      modifies this`participants
      ensures Valid()
      ensures FindTeam(old(participants), teamId).None? ==>
        warning == Some("Please select a player for this team first.") && participants == old(participants)
      ensures FindTeam(old(participants), teamId).Some? ==>
        && warning.None?
        && participants == Added(old(participants), teamId, FindTeam(old(participants), teamId).value.playerId, result)
      ensures old(Covered(selectedTeams, participants)) ==> Covered(selectedTeams, participants)
    {
      var found := FindTeam(participants, teamId);
      if found.None? {
        return Some("Please select a player for this team first.");
      }
      assert found.value in participants;
      AddParticipant(teamId, found.value.playerId, result);
      return None;
    }

    /** `handleSubmit`: the warning, or `None` when the form would be posted. */
    method Submit() returns (warning: Option<string>)
      ensures warning == SubmitWarning(selectedTeams, participants)
    {
      if |selectedTeams| < 2 {
        return Some("Please select at least 2 teams.");
      }
      if |participants| != |selectedTeams| {
        return Some("Please select one player for each team.");
      }
      if Winners(participants) != 1 {
        return Some("Please select exactly one winner.");
      }
      return None;
    }
  }

  /** Auto-fill keeps the team's player and gives it the new result, as the team's only entry. */
  lemma {:induction false} AutoFillKeepsPlayer(ps: seq<Entry>, teamId: Id, result: Result)
    requires FindTeam(ps, teamId).Some?
    ensures var r := Added(ps, teamId, FindTeam(ps, teamId).value.playerId, result);
      && r[|r| - 1] == FindTeam(ps, teamId).value.(result := result)
      && forall i :: 0 <= i < |r| - 1 ==> r[i].teamId != teamId
  {
    AddedOnlyEntryOfTeam(ps, teamId, FindTeam(ps, teamId).value.playerId, result);
  }
}
