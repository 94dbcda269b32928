/**
 * The admin's scoreboard page: the public-slug field's sanitiser, the status
 * toggle, and the pickers that offer teams and scorers not yet on a
 * scoreboard. The team picker is `Pickers.Offered` over the scoreboard's
 * team ids.
 */
module ScoreboardsPage {
  import opened Common
  import opened Seqs
  import opened Strings
  import opened Schema
  import opened Pickers

  /** The replacement in `replace(/[^a-z0-9-]/g, '-')`: characters outside the class become `-`. */
  function SlugOut(c: char): char
  {
    if ('a' <= c <= 'z') || ('0' <= c <= '9') || c == '-' then c else '-'
  }

  /** The slug field's `onChange`: lower-case, then every character outside `[a-z0-9-]` becomes `-`. */
  function Sanitize(s: string): (r: string)
    ensures |r| == |s|
    ensures forall i :: 0 <= i < |r| ==> ('a' <= r[i] <= 'z') || ('0' <= r[i] <= '9') || r[i] == '-'
    ensures forall i :: 0 <= i < |s| && (('a' <= s[i] <= 'z') || ('0' <= s[i] <= '9') || s[i] == '-') ==> r[i] == s[i]
    ensures forall i :: 0 <= i < |s| && 'A' <= s[i] <= 'Z' ==> r[i] as int == s[i] as int + 32
  {
    var lower := ToLower(s);
    seq(|s|, i requires 0 <= i < |s| => SlugOut(lower[i]))
  }

  /** Typing into a field that already holds a sanitised slug changes nothing. */
  lemma {:induction false} SanitizeIdempotent(s: string)
    ensures Sanitize(Sanitize(s)) == Sanitize(s)
  {
    var once := Sanitize(s);
    var twice := Sanitize(once);
    assert forall i :: 0 <= i < |once| ==> twice[i] == once[i];
  }

  /** A non-empty sanitised slug passes the server's slug validation. */
  lemma {:induction false} SanitizedIsSlug(s: string)
    requires s != []
    ensures IsSlug(Sanitize(s))
  {
    var r := Sanitize(s);
    forall i | 0 <= i < |r| ensures SlugChar(r[i]) {
    }
  }

  /** The sanitiser leaves a string alone exactly when it is already made of `[a-z0-9-]`. */
  lemma {:induction false} SanitizeFixedPoints(s: string)
    ensures Sanitize(s) == s <==> forall i :: 0 <= i < |s| ==> ('a' <= s[i] <= 'z') || ('0' <= s[i] <= '9') || s[i] == '-'
  {
    if Sanitize(s) == s {
      forall i | 0 <= i < |s| ensures ('a' <= s[i] <= 'z') || ('0' <= s[i] <= '9') || s[i] == '-' {
        assert Sanitize(s)[i] == s[i];
      }
    }
  }

  /** `handleToggleStatus`: `active` becomes `inactive`, anything else `active`. */
  function ToggledStatus(status: string): (r: string)
    ensures r == "active" || r == "inactive"
    ensures r == "inactive" <==> status == "active"
  {
    if status == "active" then "inactive" else "active"
  }

  /** On the two stored statuses the toggle swaps them, so toggling twice restores the status. */
  lemma {:induction false} ToggledStatusSwaps(s: ScoreboardStatus)
    ensures ParseScoreboardStatus(ToggledStatus(ScoreboardStatusName(s))) == Some(if s == Active then Inactive else Active)
    ensures ToggledStatus(ToggledStatus(ScoreboardStatusName(s))) == ScoreboardStatusName(s)
  {
  }

  /** The scorer picker: the scorers not already assigned to the selected scoreboard, in the fetched order. */
  function OfferedScorers(scorers: seq<Item>, current: seq<ScorerUser>): (r: seq<Item>)
    ensures forall x :: x in r <==> x in scorers && forall a :: a in current ==> a.userId != x.id
  {
    var ids := Map(current, (a: ScorerUser) => a.userId);
    forall x: Item ensures NotListed(ids)(x) <==> forall a :: a in current ==> a.userId != x.id {
      if exists a :: a in current && a.userId == x.id {
        var a :| a in current && a.userId == x.id;
        var k :| 0 <= k < |current| && current[k] == a;
        assert ids[k] == x.id;
      }
    }
    Filter(scorers, NotListed(ids))
  }

  /** Assigning from the picker never offers a pair the scorer table already holds for that scoreboard. */
  lemma {:induction false} OfferedScorerUnassigned(t: Tables, scoreboardId: Id, scorers: seq<Item>, x: Item)
    requires x in OfferedScorers(scorers, Filter(t.scorerUsers, (a: ScorerUser) => a.scoreboardId == scoreboardId))
    ensures forall a :: a in t.scorerUsers ==> (a.userId, a.scoreboardId) != (x.id, scoreboardId)
  {
    var current := Filter(t.scorerUsers, (a: ScorerUser) => a.scoreboardId == scoreboardId);
    forall a | a in t.scorerUsers && a.scoreboardId == scoreboardId ensures a.userId != x.id {
      assert a in current;
    }
  }

  function TeamOf(a: ScoreboardTeam): Id
  {
    a.teamId
  }

  /** The team picker of a scoreboard never offers a team the scoreboard already has. */
  lemma {:induction false} OfferedTeamUnassigned(t: Tables, scoreboardId: Id, teams: seq<Item>, search: string, x: Item)
    requires x in Offered(teams, Map(Filter(t.scoreboardTeams, (a: ScoreboardTeam) => a.scoreboardId == scoreboardId), TeamOf), search)
    ensures ScoreboardTeam(scoreboardId, x.id) !in t.scoreboardTeams
  {
  }
}
