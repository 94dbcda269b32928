/**
 * The public scoreboard page: the rank column, the team table's win rate,
 * the empty-state message of the standings tab, and the badges of the match
 * log. The win rate is the exact integer form of rounding `wins / total`
 * to a whole percentage, halves up.
 */
module ScoreboardView {
  import opened Common
  import opened Ordering
  import opened Schema
  import opened Ledger
  import PublicRoutes
  import MyMatches

  /** The win rate of a team row, a whole percentage; 0 for a team without decided matches. */
  function WinRate(wins: nat, losses: nat): (r: nat)
    ensures wins + losses == 0 ==> r == 0
    ensures r <= 100
    ensures wins == 0 ==> r == 0
    ensures wins > 0 && losses == 0 ==> r == 100
  {
    var total := wins + losses;
    if total == 0 then 0
    else
      RateBounds(wins, losses);
      (200 * wins + total) / (2 * total)
  }

  lemma {:induction false} RateBounds(wins: nat, losses: nat)
    requires wins + losses > 0
    ensures var total := wins + losses;
      && (200 * wins + total) / (2 * total) <= 100
      && (wins == 0 ==> (200 * wins + total) / (2 * total) == 0)
      && (wins > 0 && losses == 0 ==> (200 * wins + total) / (2 * total) == 100)
  {
    var total := wins + losses;
    var n := 200 * wins + total;
    var d := 2 * total;
    assert n <= 201 * total;
    assert n < 101 * d;
    DivUnique(n, d, n / d);
    DivBelow(n, d, 101);
    if wins == 0 {
      assert 0 * d <= n < 1 * d;
      DivUnique(n, d, 0);
    }
    if wins > 0 && losses == 0 {
      assert n == 201 * total;
      assert 100 * d <= n < 101 * d;
      DivUnique(n, d, 100);
    }
  }

  /** `n / d` is the one quotient `q` with `q * d <= n < (q + 1) * d`. */
  lemma {:induction false} DivUnique(n: nat, d: nat, q: nat)
    requires d > 0 && q * d <= n < (q + 1) * d
    ensures n / d == q
  {
    var p := n / d;
    assert p * d + n % d == n;
    if p < q {
      MulLe(p + 1, q, d);
    } else if p > q {
      MulLe(q + 1, p, d);
    }
  }

  lemma {:induction false} DivBelow(n: nat, d: nat, k: nat)
    requires d > 0 && n < k * d
    ensures n / d < k
  {
    var p := n / d;
    assert p * d + n % d == n;
    if p >= k {
      MulLe(k, p, d);
    }
  }

  lemma {:induction false} MulLe(a: nat, b: nat, c: nat)
    requires a <= b
    ensures a * c <= b * c
  {
    assert b * c == a * c + (b - a) * c;
  }

  /** The rate is `100 * wins / total` rounded to the nearest whole number, halves up. */
  lemma {:induction false} WinRateRounds(wins: nat, losses: nat)
    requires wins + losses > 0
    ensures var total := wins + losses;
      && 2 * WinRate(wins, losses) * total <= 200 * wins + total
      && 200 * wins + total < 2 * (WinRate(wins, losses) + 1) * total
  {
    var total := wins + losses;
    var n := 200 * wins + total;
    var d := 2 * total;
    var r := WinRate(wins, losses);
    assert r == n / d;
    assert r * d + n % d == n;
    assert 2 * r * total == r * d;
    assert 2 * (r + 1) * total == r * d + d;
  }

  /** A team that won more of the same number of decided matches has at least the rate. */
  lemma {:induction false} WinRateMonotone(w1: nat, w2: nat, total: nat)
    requires w1 <= w2 <= total && total > 0
    ensures WinRate(w1, total - w1) <= WinRate(w2, total - w2)
  {
    var a := 200 * w1 + total;
    var b := 200 * w2 + total;
    var d := 2 * total;
    var p := a / d;
    var q := b / d;
    assert p * d + a % d == a;
    assert q * d + b % d == b;
    if p > q {
      MulLe(q + 1, p, d);
    }
  }

  /** The rank shown in row `index` of a standings table. */
  function Rank(index: nat): (r: nat)
    ensures r >= 1
  {
    index + 1
  }

  /**
   * Ranks run 1, 2, ... down the team table, and a row is never ranked above
   * a row that the ordering of the standings query puts before it.
   */
  lemma {:induction false} TeamRanksFollowStandings(t: Tables, slug: string, i: nat, j: nat)
    requires PublicRoutes.TeamStandings(t, slug).Ok?
    requires i < j < |PublicRoutes.TeamStandings(t, slug).value|
    ensures Rank(0) == 1 && Rank(i) < Rank(j)
    ensures var rows := PublicRoutes.TeamStandings(t, slug).value;
      PublicRoutes.RankLe(rows[i].wins, rows[i].losses, rows[i].name, rows[j].wins, rows[j].losses, rows[j].name)
  {
    var rows := PublicRoutes.TeamStandings(t, slug).value;
    assert PublicRoutes.TeamRank()(rows[i], rows[j]);
  }

  /** The same for the player table. */
  lemma {:induction false} PlayerRanksFollowStandings(t: Tables, slug: string, i: nat, j: nat)
    requires PublicRoutes.PlayerStandings(t, slug).Ok?
    requires i < j < |PublicRoutes.PlayerStandings(t, slug).value|
    ensures Rank(i) < Rank(j)
    ensures var rows := PublicRoutes.PlayerStandings(t, slug).value;
      PublicRoutes.RankLe(rows[i].wins, rows[i].losses, rows[i].name, rows[j].wins, rows[j].losses, rows[j].name)
  {
    var rows := PublicRoutes.PlayerStandings(t, slug).value;
    assert PublicRoutes.PlayerRank()(rows[i], rows[j]);
  }

  /** The table the standings tab shows, chosen by `standingType`. */
  datatype StandingType = PlayerTable | TeamTable

  /** "No data recorded yet." shows exactly when the chosen table has no rows. */
  function ShowsEmptyState(kind: StandingType, players: seq<PublicRoutes.PlayerStanding>, teams: seq<PublicRoutes.TeamStanding>)
    : (r: bool)
    ensures kind == PlayerTable ==> (r <==> players == [])
    ensures kind == TeamTable ==> (r <==> teams == [])
  {
    (kind == PlayerTable && |players| == 0) || (kind == TeamTable && |teams| == 0)
  }

  /** With any team assigned to an active scoreboard, the team table is never empty. */
  lemma {:induction false} AssignedTeamNoEmptyState(t: Tables, slug: string, teamId: Id)
    requires PublicRoutes.TeamStandings(t, slug).Ok?
    requires ScoreboardTeam(PublicRoutes.ActiveBySlug(t, slug).value, teamId) in t.scoreboardTeams && teamId in t.teams
    ensures !ShowsEmptyState(TeamTable, [], PublicRoutes.TeamStandings(t, slug).value)
  {
    var sb := PublicRoutes.ActiveBySlug(t, slug).value;
    var rows := PublicRoutes.TeamStandings(t, slug).value;
    var contenders := PublicRoutes.Contenders(t, sb);
    assert ScoreboardTeam(sb, teamId) in contenders;
    assert |PublicRoutes.TeamRows(t, sb, contenders)| > 0;
  }

  /** The team table shows "No data recorded yet." exactly when no existing team is assigned to the scoreboard. */
  lemma {:induction false} TeamEmptyStateIffUnassigned(t: Tables, slug: string)
    requires PublicRoutes.TeamStandings(t, slug).Ok?
    ensures var sb := PublicRoutes.ActiveBySlug(t, slug).value;
      ShowsEmptyState(TeamTable, [], PublicRoutes.TeamStandings(t, slug).value) <==>
      forall a :: a in t.scoreboardTeams && a.scoreboardId == sb ==> a.teamId !in t.teams
  {
    var sb := PublicRoutes.ActiveBySlug(t, slug).value;
    var rows := PublicRoutes.TeamStandings(t, slug).value;
    var contenders := PublicRoutes.Contenders(t, sb);
    var built := PublicRoutes.TeamRows(t, sb, contenders);
    assert |multiset(rows)| == |multiset(built)|;
    if |contenders| > 0 {
      assert contenders[0] in contenders;
    }
  }

  /**
   * The player table shows "No data recorded yet." exactly when no player of
   * an existing team is on a team assigned to the scoreboard.
   */
  lemma {:induction false} PlayerEmptyStateIffNoEntrants(t: Tables, slug: string)
    requires PublicRoutes.PlayerStandings(t, slug).Ok?
    ensures var sb := PublicRoutes.ActiveBySlug(t, slug).value;
      ShowsEmptyState(PlayerTable, PublicRoutes.PlayerStandings(t, slug).value, []) <==>
      forall m :: m in t.memberships && m.playerId in t.players && m.teamId in t.teams ==>
        ScoreboardTeam(sb, m.teamId) !in t.scoreboardTeams
  {
    var sb := PublicRoutes.ActiveBySlug(t, slug).value;
    var rows := PublicRoutes.PlayerStandings(t, slug).value;
    var entrants := PublicRoutes.Entrants(t, sb);
    var built := PublicRoutes.Rows(t, sb, entrants);
    assert |multiset(rows)| == |multiset(built)|;
    if |entrants| > 0 {
      assert entrants[0] in entrants;
    }
  }

  /** The log entry's badge and remarks box follow the match row exactly as the scorer's own list does. */
  lemma {:induction false} LogBadgesFollowMatch(t: Tables, v: MatchView)
    ensures var e := PublicRoutes.Format(t, v);
      && (e.isEdited <==> MyMatches.ShowsEditedBadge(v.row))
      && ((e.isEdited && Truthy(e.remarks)) <==> MyMatches.ShowsRemarks(v.row))
  {
  }
}
