/**
 * The scorer's list of recorded matches: each match's participants are shown
 * grouped by team, and the edited badge and the admin's remarks are shown
 * under the conditions the public page also uses.
 */
module MyMatches {
  import opened Common
  import opened Seqs
  import opened Schema
  import MatchRoutes

  /** One team's block in a match card. */
  datatype Group = Group(teamId: Id, members: seq<Participant>, winner: bool)

  function OfTeam(teamId: Id): Participant -> bool
  {
    (p: Participant) => p.teamId == teamId
  }

  function TeamOf(p: Participant): Id
  {
    p.teamId
  }

  /** `Array.from(new Set(participants.map(p => p.teamId)))`: each team once, in order of first appearance. */
  function TeamOrder(ps: seq<Participant>): (r: seq<Id>)
    ensures forall t :: t in r <==> exists p :: p in ps && p.teamId == t
    ensures forall i :: 0 <= i < |r| ==> (exists p :: p in ps && p.teamId == r[i]) && r[i] in Map(ps, TeamOf)
    ensures forall i, j :: 0 <= i < j < |r| ==> r[i] != r[j]
    ensures forall i, j :: 0 <= i < j < |r| ==> IndexOf(Map(ps, TeamOf), r[i]) < IndexOf(Map(ps, TeamOf), r[j])
  {
    var ids := Map(ps, TeamOf);
    forall t ensures t in ids <==> exists p :: p in ps && p.teamId == t {
      if exists p :: p in ps && p.teamId == t {
        var p :| p in ps && p.teamId == t;
        var k :| 0 <= k < |ps| && ps[k] == p;
        assert ids[k] == t;
      }
      if t in ids {
        var k :| 0 <= k < |ids| && ids[k] == t;
        assert ps[k] in ps;
      }
    }
    var r := Distinct(ids);
    assert forall i :: 0 <= i < |r| ==> r[i] in r;
    r
  }

  /** The block of team `teamId`: its participants in their original order; the team is the winner when its first one won. */
  function GroupOf(ps: seq<Participant>, teamId: Id): (g: Group)
    requires exists p :: p in ps && p.teamId == teamId
    ensures g.teamId == teamId && g.members != []
    ensures forall p :: p in g.members <==> p in ps && p.teamId == teamId
    ensures g.members == Filter(ps, OfTeam(teamId))
    ensures g.winner <==> g.members[0].result == Win
    ensures teamId in Map(ps, TeamOf) && g.members[0] == ps[IndexOf(Map(ps, TeamOf), teamId)]
    ensures g.winner <==> ps[IndexOf(Map(ps, TeamOf), teamId)].result == Win
  {
    var members := Filter(ps, OfTeam(teamId));
    var p :| p in ps && p.teamId == teamId;
    var ids := Map(ps, TeamOf);
    var i :| 0 <= i < |ps| && ps[i] == p;
    assert ids[i] == teamId;
    var k := IndexOf(ids, teamId);
    assert forall j :: 0 <= j < k ==> !OfTeam(teamId)(ps[j]) by {
      forall j | 0 <= j < k ensures !OfTeam(teamId)(ps[j]) {
        assert ids[j] != teamId;
      }
    }
    FilterFirst(ps, OfTeam(teamId), k);
    Group(teamId, members, members[0].result == Win)
  }

  /** The team blocks of one match card. */
  function Groups(ps: seq<Participant>): (r: seq<Group>)
    ensures |r| == |TeamOrder(ps)|
    ensures forall i :: 0 <= i < |r| ==> r[i] == GroupOf(ps, TeamOrder(ps)[i])
  {
    var order := TeamOrder(ps);
    seq(|order|, i requires 0 <= i < |order| => GroupOf(ps, order[i]))
  }

  /**
   * The blocks partition the participants: every participant is in exactly
   * one block, the one of its team, and each block lists only its own team.
   */
  lemma {:induction false} GroupsPartition(ps: seq<Participant>, p: Participant)
    requires p in ps
    ensures var r := Groups(ps);
      && (exists i :: 0 <= i < |r| && p in r[i].members)
      && (forall i, j :: 0 <= i < |r| && 0 <= j < |r| && p in r[i].members && p in r[j].members ==> i == j)
  {
    var r := Groups(ps);
    var order := TeamOrder(ps);
    assert p.teamId in order;
    var k := IndexOf(order, p.teamId);
    assert r[k] == GroupOf(ps, p.teamId);
    forall i | 0 <= i < |r| && p in r[i].members ensures i == k {
      assert r[i] == GroupOf(ps, order[i]);
    }
  }

  /** Blocks appear in the order in which their teams first appear among the participants. */
  lemma {:induction false} GroupsInFirstAppearanceOrder(ps: seq<Participant>, i: nat, j: nat)
    requires i < j < |Groups(ps)|
    ensures Groups(ps)[i].teamId != Groups(ps)[j].teamId
    ensures IndexOf(Map(ps, TeamOf), Groups(ps)[i].teamId) < IndexOf(Map(ps, TeamOf), Groups(ps)[j].teamId)
  {
  }

  /** The "Edited by Admin" badge. */
  predicate ShowsEditedBadge(m: Match)
  {
    m.isEdited
  }

  /** The admin's remarks box. */
  predicate ShowsRemarks(m: Match)
  {
    m.isEdited && Truthy(m.remarks)
  }

  /** Remarks never show without the badge; after an admin's edit with remarks both show. */
  lemma {:induction false} AdminEditShowsRemarks(cur: Match, req: MatchRoutes.UpdateRequest, status: Option<MatchStatus>)
    ensures ShowsRemarks(cur) ==> ShowsEditedBadge(cur)
    ensures Truthy(req.remarks) ==>
      ShowsEditedBadge(MatchRoutes.Edited(cur, req, status, true)) && ShowsRemarks(MatchRoutes.Edited(cur, req, status, true))
    ensures ShowsEditedBadge(MatchRoutes.Edited(cur, req, status, false)) == ShowsEditedBadge(cur)
    ensures ShowsRemarks(MatchRoutes.Edited(cur, req, status, false)) == ShowsRemarks(cur)
  {
  }
}
