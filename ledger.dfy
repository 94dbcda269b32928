/**
 * Read access to the match ledger shared by the match routes and the public
 * routes: a match with its participant rows, and the `Match.findAll` queries
 * that select matches by a condition and order them by date, newest first.
 */
module Ledger {
  import opened Common
  import opened Seqs
  import opened Ordering
  import opened Schema

  /** A match row with its key and its `participants` association. */
  datatype MatchView = MatchView(id: Id, row: Match, participants: seq<Participant>)

  /** The participant rows of a match, in table order. */
  function ParticipantsOf(t: Tables, matchId: Id): (r: seq<Participant>)
    ensures forall p :: p in r <==> p in t.participants && p.matchId == matchId
    ensures forall i :: 0 <= i < |r| ==> r[i].matchId == matchId
  {
    Filter(t.participants, (p: Participant) => p.matchId == matchId)
  }

  function View(t: Tables, id: Id): (v: MatchView)
    requires id in t.matches
    ensures v.id == id && v.row == t.matches[id] && v.participants == ParticipantsOf(t, id)
  {
    MatchView(id, t.matches[id], ParticipantsOf(t, id))
  }

  function NewestFirst(): (MatchView, MatchView) -> bool
  {
    (a: MatchView, b: MatchView) => a.row.date >= b.row.date
  }

  function Views(t: Tables, ids: seq<Id>): (r: seq<MatchView>)
    requires forall i :: 0 <= i < |ids| ==> ids[i] in t.matches
    ensures |r| == |ids|
    ensures forall i :: 0 <= i < |r| ==> r[i] == View(t, ids[i])
  {
    seq(|ids|, i requires 0 <= i < |ids| => View(t, ids[i]))
  }

  /** The keys of the matches that satisfy `keep`, ascending. */
  function Selected(t: Tables, keep: Match -> bool): (r: seq<Id>)
    ensures forall i :: 0 <= i < |r| ==> r[i] in t.matches && keep(t.matches[r[i]])
    ensures forall id :: id in r <==> id in t.matches && keep(t.matches[id])
    ensures forall i, j :: 0 <= i < j < |r| ==> r[i] != r[j]
  {
    var all := Ascending(t.matches.Keys);
    var r := Filter(all, (id: Id) => id in t.matches && keep(t.matches[id]));
    FilterIncreasing(all, (id: Id) => id in t.matches && keep(t.matches[id]));
    r
  }

  /**
   * `Match.findAll({ where, include: participants, order: [['date', 'DESC']] })`:
   * each match that satisfies `keep` exactly once, with its participants, newest first.
   */
  function NewestMatches(t: Tables, keep: Match -> bool): (r: seq<MatchView>)
    ensures forall id :: (exists i :: 0 <= i < |r| && r[i].id == id) <==> id in t.matches && keep(t.matches[id])
    ensures forall i :: 0 <= i < |r| ==> r[i].id in t.matches && r[i] == View(t, r[i].id)
    ensures forall i, j :: 0 <= i < j < |r| ==> r[i].row.date >= r[j].row.date
    ensures forall i, j :: 0 <= i < j < |r| ==> r[i].id != r[j].id
  {
    var ids := Selected(t, keep);
    var views := Views(t, ids);
    var r := SortBy(views, NewestFirst());
    SortedViews(t, keep, ids, views, r);
    r
  }

  lemma {:induction false} SortedViews(t: Tables, keep: Match -> bool, ids: seq<Id>, views: seq<MatchView>, r: seq<MatchView>)
    requires forall i :: 0 <= i < |ids| ==> ids[i] in t.matches
    requires forall id :: id in ids <==> id in t.matches && keep(t.matches[id])
    requires forall i, j :: 0 <= i < j < |ids| ==> ids[i] != ids[j]
    requires |views| == |ids| && forall i :: 0 <= i < |views| ==> views[i] == View(t, ids[i])
    requires multiset(r) == multiset(views)
    ensures forall id :: (exists i :: 0 <= i < |r| && r[i].id == id) <==> id in t.matches && keep(t.matches[id])
    ensures forall i :: 0 <= i < |r| ==> r[i].id in t.matches && r[i] == View(t, r[i].id)
    ensures forall i, j :: 0 <= i < j < |r| ==> r[i].id != r[j].id
  {
    SameElements(r, views);
    forall id | id in t.matches && keep(t.matches[id]) ensures exists i :: 0 <= i < |r| && r[i].id == id {
      var k :| 0 <= k < |ids| && ids[k] == id;
      assert views[k] in r;
    }
    forall i | 0 <= i < |r| ensures r[i].id in t.matches && r[i] == View(t, r[i].id) && r[i].id in ids {
      assert r[i] in views;
    }
    forall i, j | 0 <= i < j < |views| ensures views[i] != views[j] {
      assert views[i].id == ids[i] && views[j].id == ids[j];
    }
    PermutationNoDuplicates(r, views);
  }
}
