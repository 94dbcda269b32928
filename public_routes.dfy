/**
 * The unauthenticated `/api/public` routes. Every one of them first looks up
 * an active scoreboard by its public slug; then it returns the scoreboard
 * with its teams, the player or team standings (two aggregate SQL queries),
 * the recent match log, or one player's record on the scoreboard.
 */
module PublicRoutes {
  import opened Common
  import opened Seqs
  import opened Ordering
  import opened Schema
  import opened Ledger
  import PlayerRoutes

  /** The first of `ids` whose scoreboard has the slug and is active. */
  function FirstActive(t: Tables, ids: seq<Id>, slug: string): (r: Option<Id>)
    requires forall i :: 0 <= i < |ids| ==> ids[i] in t.scoreboards
    ensures r.Some? ==> (r.value in t.scoreboards && t.scoreboards[r.value].publicSlug == slug &&
                         t.scoreboards[r.value].status == Active)
    ensures r.None? <==> forall i :: 0 <= i < |ids| ==>
      !(t.scoreboards[ids[i]].publicSlug == slug && t.scoreboards[ids[i]].status == Active)
  {
    if ids == [] then None
    else if t.scoreboards[ids[0]].publicSlug == slug && t.scoreboards[ids[0]].status == Active then Some(ids[0])
    else
      var r := FirstActive(t, ids[1..], slug);
      assert forall i :: 1 <= i < |ids| ==> ids[i] == ids[1..][i - 1];
      r
  }

  /** `Scoreboard.findOne({ where: { publicSlug: slug, status: 'active' } })`. */
  function ActiveBySlug(t: Tables, slug: string): (r: Option<Id>)
    ensures r.Some? ==> (r.value in t.scoreboards && t.scoreboards[r.value].publicSlug == slug &&
                         t.scoreboards[r.value].status == Active)
    ensures r.None? <==> forall id :: id in t.scoreboards ==>
      !(t.scoreboards[id].publicSlug == slug && t.scoreboards[id].status == Active)
  {
    var ids := Ascending(t.scoreboards.Keys);
    assert forall i :: 0 <= i < |ids| ==> ids[i] in t.scoreboards;
    var r := FirstActive(t, ids, slug);
    assert r.None? ==> forall id :: id in t.scoreboards ==> exists i :: 0 <= i < |ids| && ids[i] == id;
    r
  }

  /** Slugs are unique, so an active scoreboard is found by its own slug and an inactive one by none. */
  lemma {:induction false} ActiveBySlugFinds(t: Tables, id: Id)
    requires WellFormed(t) && id in t.scoreboards
    ensures t.scoreboards[id].status == Active ==> ActiveBySlug(t, t.scoreboards[id].publicSlug) == Some(id)
    ensures t.scoreboards[id].status == Inactive ==> ActiveBySlug(t, t.scoreboards[id].publicSlug).None?
  {
    var r := ActiveBySlug(t, t.scoreboards[id].publicSlug);
    if r.Some? {
      assert t.scoreboards[r.value].publicSlug == t.scoreboards[id].publicSlug;
    }
  }

  /** A scoreboard as `GET /api/public/scoreboard/:slug` returns it, with its teams. */
  datatype Board = Board(id: Id, row: Scoreboard, teams: seq<Id>)

  /** The teams of the scoreboard's `scoreboard_teams` rows, in table order. */
  function BoardTeams(t: Tables, scoreboardId: Id): (r: seq<Id>)
    ensures forall teamId :: teamId in r <==> teamId in t.teams && ScoreboardTeam(scoreboardId, teamId) in t.scoreboardTeams
  {
    var rows := Filter(t.scoreboardTeams, (a: ScoreboardTeam) => a.scoreboardId == scoreboardId && a.teamId in t.teams);
    var r := Map(rows, (a: ScoreboardTeam) => a.teamId);
    forall teamId | teamId in t.teams && ScoreboardTeam(scoreboardId, teamId) in t.scoreboardTeams ensures teamId in r {
      var i :| 0 <= i < |rows| && rows[i] == ScoreboardTeam(scoreboardId, teamId);
      assert r[i] == teamId;
    }
    r
  }

  /** `GET /api/public/scoreboard/:slug`. */
  function PublicScoreboard(t: Tables, slug: string): (r: Reply<Board>)
    ensures r.Err? <==> ActiveBySlug(t, slug).None?
    ensures r.Err? ==> r == Err(404, "Scoreboard not found")
    ensures r.Ok? ==> && r.value.id in t.scoreboards && r.value.row == t.scoreboards[r.value.id]
                      && r.value.row.publicSlug == slug && r.value.row.status == Active
                      && r.value.teams == BoardTeams(t, r.value.id)
  {
    match ActiveBySlug(t, slug)
    case None => Err(404, "Scoreboard not found")
    case Some(id) => Ok(200, Board(id, t.scoreboards[id], BoardTeams(t, id)))
  }

  /**
   * `ORDER BY wins DESC, losses ASC, name ASC`, shared by both standings;
   * rows that agree on all three may come in either order.
   */
  predicate RankLe(w1: nat, l1: nat, n1: string, w2: nat, l2: nat, n2: string)
  {
    w1 > w2 || (w1 == w2 && (l1 < l2 || (l1 == l2 && StrLe(n1, n2))))
  }

  lemma {:induction false} RankLeTotal(w1: nat, l1: nat, n1: string, w2: nat, l2: nat, n2: string)
    ensures RankLe(w1, l1, n1, w2, l2, n2) || RankLe(w2, l2, n2, w1, l1, n1)
  {
    StrLeTotal(n1, n2);
  }

  lemma {:induction false} RankLeTransitive(w1: nat, l1: nat, n1: string, w2: nat, l2: nat, n2: string,
                                            w3: nat, l3: nat, n3: string)
    requires RankLe(w1, l1, n1, w2, l2, n2) && RankLe(w2, l2, n2, w3, l3, n3)
    ensures RankLe(w1, l1, n1, w3, l3, n3)
  {
    if w1 == w2 == w3 && l1 == l2 == l3 {
      StrLeTransitive(n1, n2, n3);
    }
  }

  /** A row of the player standings: one (player, team) membership with the player's tallies. */
  datatype PlayerStanding = PlayerStanding(
    playerId: Id, name: string, photo: Option<string>,
    teamId: Id, teamName: string, teamLogo: Option<string>,
    wins: nat, losses: nat)

  function PlayerRank(): (PlayerStanding, PlayerStanding) -> bool
  {
    (a: PlayerStanding, b: PlayerStanding) => RankLe(a.wins, a.losses, a.name, b.wins, b.losses, b.name)
  }

  lemma {:induction false} PlayerRankTotal()
    ensures TotalPreorder(PlayerRank())
  {
    forall a: PlayerStanding, b: PlayerStanding ensures PlayerRank()(a, b) || PlayerRank()(b, a) {
      RankLeTotal(a.wins, a.losses, a.name, b.wins, b.losses, b.name);
    }
    forall a: PlayerStanding, b: PlayerStanding, c: PlayerStanding | PlayerRank()(a, b) && PlayerRank()(b, c)
      ensures PlayerRank()(a, c)
    {
      RankLeTransitive(a.wins, a.losses, a.name, b.wins, b.losses, b.name, c.wins, c.losses, c.name);
    }
  }

  /** The match counts towards the scoreboard's tables: it belongs to the scoreboard and is completed. */
  predicate Counted(t: Tables, scoreboardId: Id, matchId: Id)
  {
    matchId in t.matches && t.matches[matchId].scoreboardId == scoreboardId && t.matches[matchId].status == Completed
  }

  /**
   * The memberships the player-standings query groups on: the player and
   * the team exist and the team takes part in the scoreboard.
   */
  function Entrants(t: Tables, scoreboardId: Id): (r: seq<Membership>)
    ensures forall m :: m in r <==> (m in t.memberships && m.playerId in t.players && m.teamId in t.teams &&
                                     ScoreboardTeam(scoreboardId, m.teamId) in t.scoreboardTeams)
    ensures forall i :: 0 <= i < |r| ==> r[i].playerId in t.players && r[i].teamId in t.teams
  {
    Filter(t.memberships, (m: Membership) => m.playerId in t.players && m.teamId in t.teams &&
      ScoreboardTeam(scoreboardId, m.teamId) in t.scoreboardTeams)
  }

  /**
   * The player's sum as the query computes it: the `LEFT JOIN` of `matches`
   * carries the scoreboard and status conditions, so it never drops a
   * participant row, and every row of the player with the result counts.
   */
  function AllResults(t: Tables, playerId: Id, result: Result): (n: nat)
    ensures n <= |t.participants|
    ensures n == 0 <==> forall p :: p in t.participants ==> !(p.playerId == playerId && p.result == result)
  {
    Count(t.participants, (p: Participant) => p.playerId == playerId && p.result == result)
  }

  /** The player's sum restricted to completed matches of the scoreboard, as the join evidently means. */
  function ScoreboardResults(t: Tables, scoreboardId: Id, playerId: Id, result: Result): (n: nat)
    ensures n == 0 <==> forall p :: p in t.participants ==>
      !(p.playerId == playerId && p.result == result && Counted(t, scoreboardId, p.matchId))
  {
    Count(t.participants, (p: Participant) => p.playerId == playerId && p.result == result && Counted(t, scoreboardId, p.matchId))
  }

  function StandingAsWritten(t: Tables, m: Membership): (s: PlayerStanding)
    requires m.playerId in t.players && m.teamId in t.teams
    ensures s.playerId == m.playerId && s.teamId == m.teamId && s.name == t.players[m.playerId].name
    ensures s.wins == AllResults(t, m.playerId, Win) && s.losses == AllResults(t, m.playerId, Loss)
  {
    PlayerStanding(m.playerId, t.players[m.playerId].name, t.players[m.playerId].photo,
                   m.teamId, t.teams[m.teamId].name, t.teams[m.teamId].logo,
                   AllResults(t, m.playerId, Win), AllResults(t, m.playerId, Loss))
  }

  function Standing(t: Tables, scoreboardId: Id, m: Membership): (s: PlayerStanding)
    requires m.playerId in t.players && m.teamId in t.teams
    ensures s.playerId == m.playerId && s.teamId == m.teamId && s.name == t.players[m.playerId].name
    ensures s.wins == ScoreboardResults(t, scoreboardId, m.playerId, Win)
    ensures s.losses == ScoreboardResults(t, scoreboardId, m.playerId, Loss)
  {
    PlayerStanding(m.playerId, t.players[m.playerId].name, t.players[m.playerId].photo,
                   m.teamId, t.teams[m.teamId].name, t.teams[m.teamId].logo,
                   ScoreboardResults(t, scoreboardId, m.playerId, Win), ScoreboardResults(t, scoreboardId, m.playerId, Loss))
  }

  /** The unordered result of the standings query as written: one row per entrant membership. */
  function RowsAsWritten(t: Tables, ms: seq<Membership>): (r: seq<PlayerStanding>)
    requires forall i :: 0 <= i < |ms| ==> ms[i].playerId in t.players && ms[i].teamId in t.teams
    ensures |r| == |ms|
    ensures forall i :: 0 <= i < |r| ==> r[i] == StandingAsWritten(t, ms[i])
  {
    seq(|ms|, i requires 0 <= i < |ms| => StandingAsWritten(t, ms[i]))
  }

  function Rows(t: Tables, scoreboardId: Id, ms: seq<Membership>): (r: seq<PlayerStanding>)
    requires forall i :: 0 <= i < |ms| ==> ms[i].playerId in t.players && ms[i].teamId in t.teams
    ensures |r| == |ms|
    ensures forall i :: 0 <= i < |r| ==> r[i] == Standing(t, scoreboardId, ms[i])
  {
    seq(|ms|, i requires 0 <= i < |ms| => Standing(t, scoreboardId, ms[i]))
  }

  /** `GET /api/public/scoreboard/:slug/standings`, as the query is written. */
  function PlayerStandingsAsWritten(t: Tables, slug: string): (r: Reply<seq<PlayerStanding>>)
    ensures r.Err? <==> ActiveBySlug(t, slug).None?
    ensures r.Err? ==> r == Err(404, "Scoreboard not found")
    ensures r.Ok? ==> SortedBy(r.value, PlayerRank())
    ensures r.Ok? ==> multiset(r.value) == multiset(RowsAsWritten(t, Entrants(t, ActiveBySlug(t, slug).value)))
  {
    match ActiveBySlug(t, slug)
    case None => Err(404, "Scoreboard not found")
    case Some(id) =>
      PlayerRankTotal();
      Ok(200, SortBy(RowsAsWritten(t, Entrants(t, id)), PlayerRank()))
  }

  /** The player standings with the tallies limited to the scoreboard's completed matches. */
  function PlayerStandings(t: Tables, slug: string): (r: Reply<seq<PlayerStanding>>)
    ensures r.Err? <==> ActiveBySlug(t, slug).None?
    ensures r.Err? ==> r == Err(404, "Scoreboard not found")
    ensures r.Ok? ==> SortedBy(r.value, PlayerRank())
    ensures r.Ok? ==> multiset(r.value) == multiset(Rows(t, ActiveBySlug(t, slug).value, Entrants(t, ActiveBySlug(t, slug).value)))
  {
    match ActiveBySlug(t, slug)
    case None => Err(404, "Scoreboard not found")
    case Some(id) =>
      PlayerRankTotal();
      Ok(200, SortBy(Rows(t, id, Entrants(t, id)), PlayerRank()))
  }

  /**
   * A membership has its standings row exactly when its team takes part in
   * the scoreboard; the row does not depend on a pending removal.
   */
  lemma {:induction false} StandingsRows(t: Tables, slug: string, m: Membership)
    requires PlayerStandingsAsWritten(t, slug).Ok?
    requires m in t.memberships && m.playerId in t.players && m.teamId in t.teams
    ensures var rows := PlayerStandingsAsWritten(t, slug).value;
      (exists i :: 0 <= i < |rows| && rows[i] == StandingAsWritten(t, m)) <==>
        ScoreboardTeam(ActiveBySlug(t, slug).value, m.teamId) in t.scoreboardTeams
  {
    var sb := ActiveBySlug(t, slug).value;
    var ms := Entrants(t, sb);
    RowsOfMemberships(t, ms, PlayerStandingsAsWritten(t, slug).value, m);
    if ScoreboardTeam(sb, m.teamId) in t.scoreboardTeams {
      assert m in ms;
    }
  }

  lemma {:induction false} RowsOfMemberships(t: Tables, ms: seq<Membership>, rows: seq<PlayerStanding>, m: Membership)
    requires forall i :: 0 <= i < |ms| ==> ms[i].playerId in t.players && ms[i].teamId in t.teams
    requires multiset(rows) == multiset(RowsAsWritten(t, ms))
    requires m.playerId in t.players && m.teamId in t.teams
    ensures (exists i :: 0 <= i < |rows| && rows[i] == StandingAsWritten(t, m)) <==>
      exists k :: 0 <= k < |ms| && ms[k].playerId == m.playerId && ms[k].teamId == m.teamId
  {
    var unsorted := RowsAsWritten(t, ms);
    SameElements(rows, unsorted);
    if exists k :: 0 <= k < |ms| && ms[k].playerId == m.playerId && ms[k].teamId == m.teamId {
      var k :| 0 <= k < |ms| && ms[k].playerId == m.playerId && ms[k].teamId == m.teamId;
      assert unsorted[k] == StandingAsWritten(t, m);
      assert unsorted[k] in rows;
    }
    if exists i :: 0 <= i < |rows| && rows[i] == StandingAsWritten(t, m) {
      var i :| 0 <= i < |rows| && rows[i] == StandingAsWritten(t, m);
      assert rows[i] in unsorted;
      var k :| 0 <= k < |unsorted| && unsorted[k] == rows[i];
      assert ms[k].playerId == m.playerId && ms[k].teamId == m.teamId;
    }
  }

  /** A player on two teams of the scoreboard is listed twice, once per team. */
  lemma {:induction false} TwoTeamsTwoRows(t: Tables, slug: string, m1: Membership, m2: Membership)
    requires PlayerStandingsAsWritten(t, slug).Ok?
    requires m1 in t.memberships && m2 in t.memberships && m1.playerId == m2.playerId && m1.teamId != m2.teamId
    requires m1.playerId in t.players && m1.teamId in t.teams && m2.teamId in t.teams
    requires ScoreboardTeam(ActiveBySlug(t, slug).value, m1.teamId) in t.scoreboardTeams
    requires ScoreboardTeam(ActiveBySlug(t, slug).value, m2.teamId) in t.scoreboardTeams
    ensures var rows := PlayerStandingsAsWritten(t, slug).value;
      exists i, j :: 0 <= i < |rows| && 0 <= j < |rows| && i != j &&
        rows[i].playerId == rows[j].playerId == m1.playerId
  {
    var rows := PlayerStandingsAsWritten(t, slug).value;
    StandingsRows(t, slug, m1);
    StandingsRows(t, slug, m2);
    var i :| 0 <= i < |rows| && rows[i] == StandingAsWritten(t, m1);
    var j :| 0 <= j < |rows| && rows[j] == StandingAsWritten(t, m2);
    assert rows[i].teamId != rows[j].teamId;
  }

  /** A database where the query as written credits a win on another scoreboard to this scoreboard's table. */
  function CrossBoard(): Tables
  {
    Tables(
      map[],
      map[3 := Player("Ann", None)],
      map[2 := Team("Reds", None)],
      [Membership(2, 3, false)],
      map[0 := Scoreboard("Spring", None, "sp", Active, 9, 0), 1 := Scoreboard("Autumn", None, "au", Active, 9, 0)],
      [ScoreboardTeam(0, 2), ScoreboardTeam(1, 2)],
      [],
      map[4 := Match(1, None, 0, Completed, 9, false, None)],
      [Participant(4, 2, 3, Win)])
  }

  /** Scoreboard 0 has no match at all, yet its table as written gives Ann a win. */
  lemma CrossBoardWin()
    ensures StandingAsWritten(CrossBoard(), Membership(2, 3, false)).wins == 1
    ensures Standing(CrossBoard(), 0, Membership(2, 3, false)).wins == 0
    ensures forall id :: id in CrossBoard().matches ==> CrossBoard().matches[id].scoreboardId != 0
  {
    var t := CrossBoard();
    var p := Participant(4, 2, 3, Win);
    assert t.participants == [p] && t.participants[1..] == [];
    assert Count(t.participants, (q: Participant) => q.playerId == 3 && q.result == Win) == 1;
  }

  /** The database of the counterexample satisfies every constraint of the schema, and Ann is on a team of scoreboard 0. */
  lemma CrossBoardWellFormed()
    ensures WellFormed(CrossBoard())
    ensures ScoreboardTeam(0, 2) in CrossBoard().scoreboardTeams && Membership(2, 3, false) in CrossBoard().memberships
  {
    CrossBoardSlugs();
  }

  /** Both scoreboards of the counterexample have distinct slugs that pass the slug validation. */
  lemma CrossBoardSlugs()
    ensures SlugsOk(CrossBoard())
  {
    var boards := CrossBoard().scoreboards;
    assert forall a :: a in boards ==> a == 0 || a == 1;
    assert boards[0].publicSlug == "sp" && boards[1].publicSlug == "au";
    assert "sp"[0] != "au"[0];
  }

  /** The restricted tally never exceeds the tally as written, and the two agree when all the player's rows are counted. */
  lemma {:induction false} ScoreboardResultsBounded(t: Tables, scoreboardId: Id, playerId: Id, result: Result)
    ensures ScoreboardResults(t, scoreboardId, playerId, result) <= AllResults(t, playerId, result)
    ensures (forall p :: p in t.participants && p.playerId == playerId ==> Counted(t, scoreboardId, p.matchId)) ==>
      ScoreboardResults(t, scoreboardId, playerId, result) == AllResults(t, playerId, result)
  {
    var narrow := (p: Participant) => p.playerId == playerId && p.result == result && Counted(t, scoreboardId, p.matchId);
    var wide := (p: Participant) => p.playerId == playerId && p.result == result;
    FilterWeaker(t.participants, narrow, wide);
    var mine := (p: Participant) => p.playerId == playerId;
    if forall p :: p in t.participants && p.playerId == playerId ==> Counted(t, scoreboardId, p.matchId) {
      FilterSame(t.participants, narrow, wide);
    }
  }

  /** Filters that agree on every element of `s` keep the same elements. */
  lemma {:induction false} FilterSame<T(!new)>(s: seq<T>, a: T -> bool, b: T -> bool)
    requires forall x :: x in s ==> a(x) == b(x)
    ensures Filter(s, a) == Filter(s, b)
  {
    if s != [] {
      assert forall x :: x in s[1..] ==> x in s;
      FilterSame(s[1..], a, b);
    }
  }

  /** A row of the team standings. */
  datatype TeamStanding = TeamStanding(teamId: Id, name: string, logo: Option<string>, wins: nat, losses: nat)

  function TeamRank(): (TeamStanding, TeamStanding) -> bool
  {
    (a: TeamStanding, b: TeamStanding) => RankLe(a.wins, a.losses, a.name, b.wins, b.losses, b.name)
  }

  lemma {:induction false} TeamRankTotal()
    ensures TotalPreorder(TeamRank())
  {
    forall a: TeamStanding, b: TeamStanding ensures TeamRank()(a, b) || TeamRank()(b, a) {
      RankLeTotal(a.wins, a.losses, a.name, b.wins, b.losses, b.name);
    }
    forall a: TeamStanding, b: TeamStanding, c: TeamStanding | TeamRank()(a, b) && TeamRank()(b, c)
      ensures TeamRank()(a, c)
    {
      RankLeTransitive(a.wins, a.losses, a.name, b.wins, b.losses, b.name, c.wins, c.losses, c.name);
    }
  }

  /**
   * `COUNT(DISTINCT CASE WHEN mp.result = ... THEN m.id END)`: the completed
   * matches of the scoreboard in which some player of the team had the result.
   */
  function Decided(t: Tables, scoreboardId: Id, teamId: Id, result: Result): set<Id>
  {
    set p | p in t.participants && p.teamId == teamId && p.result == result && Counted(t, scoreboardId, p.matchId)
      :: p.matchId
  }

  /** The completed matches of the scoreboard. */
  function CompletedMatches(t: Tables, scoreboardId: Id): set<Id>
  {
    set id | id in t.matches && Counted(t, scoreboardId, id)
  }

  /** A team wins or loses only matches of the scoreboard, and each at most once. */
  lemma {:induction false} DecidedBounded(t: Tables, scoreboardId: Id, teamId: Id, result: Result)
    ensures Decided(t, scoreboardId, teamId, result) <= CompletedMatches(t, scoreboardId)
    ensures |Decided(t, scoreboardId, teamId, result)| <= |CompletedMatches(t, scoreboardId)|
  {
    SubsetSize(Decided(t, scoreboardId, teamId, result), CompletedMatches(t, scoreboardId));
  }

  lemma {:induction false} SubsetSize(a: set<Id>, b: set<Id>)
    requires a <= b
    ensures |a| <= |b|
  {
    assert b == a + (b - a);
  }

  /** A match in which the team has both a winner and a loser counts as a win and as a loss. */
  lemma {:induction false} WinAndLossTogether(t: Tables, scoreboardId: Id, w: Participant, l: Participant)
    requires w in t.participants && l in t.participants && w.result == Win && l.result == Loss
    requires w.teamId == l.teamId && w.matchId == l.matchId && Counted(t, scoreboardId, w.matchId)
    ensures w.matchId in Decided(t, scoreboardId, w.teamId, Win) * Decided(t, scoreboardId, w.teamId, Loss)
  {
    assert l.matchId in Decided(t, scoreboardId, w.teamId, Loss);
  }

  /** The teams the team-standings query groups on. */
  function Contenders(t: Tables, scoreboardId: Id): (r: seq<ScoreboardTeam>)
    ensures forall a :: a in r <==> a in t.scoreboardTeams && a.scoreboardId == scoreboardId && a.teamId in t.teams
    ensures forall i :: 0 <= i < |r| ==> r[i].teamId in t.teams
  {
    Filter(t.scoreboardTeams, (a: ScoreboardTeam) => a.scoreboardId == scoreboardId && a.teamId in t.teams)
  }

  function TeamRows(t: Tables, scoreboardId: Id, rows: seq<ScoreboardTeam>): (r: seq<TeamStanding>)
    requires forall i :: 0 <= i < |rows| ==> rows[i].teamId in t.teams
    ensures |r| == |rows|
    ensures forall i :: 0 <= i < |r| ==>
      && r[i].teamId == rows[i].teamId && r[i].name == t.teams[rows[i].teamId].name
      && r[i].wins == |Decided(t, scoreboardId, rows[i].teamId, Win)|
      && r[i].losses == |Decided(t, scoreboardId, rows[i].teamId, Loss)|
  {
    seq(|rows|, i requires 0 <= i < |rows| =>
      TeamStanding(rows[i].teamId, t.teams[rows[i].teamId].name, t.teams[rows[i].teamId].logo,
                   |Decided(t, scoreboardId, rows[i].teamId, Win)|, |Decided(t, scoreboardId, rows[i].teamId, Loss)|))
  }

  /** `GET /api/public/scoreboard/:slug/team-standings`. */
  function TeamStandings(t: Tables, slug: string): (r: Reply<seq<TeamStanding>>)
    ensures r.Err? <==> ActiveBySlug(t, slug).None?
    ensures r.Err? ==> r == Err(404, "Scoreboard not found")
    ensures r.Ok? ==> SortedBy(r.value, TeamRank())
    ensures r.Ok? ==> var sb := ActiveBySlug(t, slug).value;
      multiset(r.value) == multiset(TeamRows(t, sb, Contenders(t, sb)))
  {
    match ActiveBySlug(t, slug)
    case None => Err(404, "Scoreboard not found")
    case Some(id) =>
      TeamRankTotal();
      Ok(200, SortBy(TeamRows(t, id, Contenders(t, id)), TeamRank()))
  }

  /** Every team-standings row has tallies bounded by the scoreboard's completed matches. */
  lemma {:induction false} TeamStandingsBounded(t: Tables, slug: string, i: nat)
    requires TeamStandings(t, slug).Ok? && i < |TeamStandings(t, slug).value|
    ensures var sb := ActiveBySlug(t, slug).value;
      var row := TeamStandings(t, slug).value[i];
      row.wins <= |CompletedMatches(t, sb)| && row.losses <= |CompletedMatches(t, sb)|
  {
    var sb := ActiveBySlug(t, slug).value;
    RowsBounded(t, sb, Contenders(t, sb), TeamStandings(t, slug).value, i);
  }

  lemma {:induction false} RowsBounded(t: Tables, scoreboardId: Id, rows: seq<ScoreboardTeam>, sorted: seq<TeamStanding>, i: nat)
    requires forall k :: 0 <= k < |rows| ==> rows[k].teamId in t.teams
    requires multiset(sorted) == multiset(TeamRows(t, scoreboardId, rows)) && i < |sorted|
    ensures sorted[i].wins <= |CompletedMatches(t, scoreboardId)| && sorted[i].losses <= |CompletedMatches(t, scoreboardId)|
  {
    var unsorted := TeamRows(t, scoreboardId, rows);
    assert sorted[i] in multiset(unsorted);
    var k :| 0 <= k < |unsorted| && unsorted[k] == sorted[i];
    DecidedBounded(t, scoreboardId, rows[k].teamId, Win);
    DecidedBounded(t, scoreboardId, rows[k].teamId, Loss);
  }

  /** A participant of a logged match, as `{ player, team }`. */
  datatype Side = Side(playerId: Id, teamId: Id)

  /** One formatted entry of the match log. */
  datatype LogEntry = LogEntry(
    id: Id, date: int, location: Option<string>, scorer: string,
    isEdited: bool, remarks: Option<string>, winners: seq<Side>, losers: seq<Side>)

  /** `match.creator?.name || 'Unknown'`. */
  function ScorerName(t: Tables, userId: Id): (r: string)
    ensures r != ""
    ensures userId in t.users && Truthy(t.users[userId].name) ==> r == t.users[userId].name.value
  {
    if userId in t.users && Truthy(t.users[userId].name) then t.users[userId].name.value else "Unknown"
  }

  function Sides(ps: seq<Participant>): (r: seq<Side>)
    ensures |r| == |ps|
    ensures forall i :: 0 <= i < |r| ==> r[i] == Side(ps[i].playerId, ps[i].teamId)
  {
    Map(ps, (p: Participant) => Side(p.playerId, p.teamId))
  }

  function WithResult(ps: seq<Participant>, result: Result): (r: seq<Participant>)
    ensures forall p :: p in r <==> p in ps && p.result == result
  {
    Filter(ps, (p: Participant) => p.result == result)
  }

  /**
   * The participants with a result keep their original order: the split
   * distributes over concatenation and keeps a single participant exactly
   * when it has the result.
   */
  lemma {:induction false} WithResultKeepsOrder(a: seq<Participant>, b: seq<Participant>, p: Participant, result: Result)
    ensures WithResult(a + b, result) == WithResult(a, result) + WithResult(b, result)
    ensures WithResult([p], result) == if p.result == result then [p] else []
  {
    FilterAppend(a, b, (q: Participant) => q.result == result);
    assert [p][1..] == [];
  }

  /** Every participant is a winner or a loser, never both. */
  lemma {:induction false} WinnersAndLosers(ps: seq<Participant>)
    ensures |WithResult(ps, Win)| + |WithResult(ps, Loss)| == |ps|
  {
    FilterSplit(ps, (p: Participant) => p.result == Win, (p: Participant) => p.result == Loss);
  }

  /** The formatting of one match for the log: winners and losers in participant order. */
  function Format(t: Tables, v: MatchView): (e: LogEntry)
    ensures e.id == v.id && e.date == v.row.date && e.location == v.row.location
    ensures e.isEdited == v.row.isEdited && e.remarks == v.row.remarks
    ensures e.scorer == ScorerName(t, v.row.createdBy)
    ensures |e.winners| + |e.losers| == |v.participants|
    ensures e.winners == Sides(WithResult(v.participants, Win)) && e.losers == Sides(WithResult(v.participants, Loss))
  {
    WinnersAndLosers(v.participants);
    LogEntry(v.id, v.row.date, v.row.location, ScorerName(t, v.row.createdBy), v.row.isEdited, v.row.remarks,
             Sides(WithResult(v.participants, Win)), Sides(WithResult(v.participants, Loss)))
  }

  /** The log's condition on a match: this scoreboard, completed. */
  function LogCondition(scoreboardId: Id): Match -> bool
  {
    (m: Match) => m.scoreboardId == scoreboardId && m.status == Completed
  }

  /** At most the 50 newest completed matches of the scoreboard, newest first. */
  function Recent(t: Tables, scoreboardId: Id): (r: seq<MatchView>)
    ensures |r| <= 50
    ensures r <= NewestMatches(t, LogCondition(scoreboardId))
    ensures |r| < 50 ==> r == NewestMatches(t, LogCondition(scoreboardId))
  {
    Take(NewestMatches(t, LogCondition(scoreboardId)), 50)
  }

  /** The log holds completed matches of the scoreboard only, each once, newest first. */
  lemma {:induction false} RecentRows(t: Tables, scoreboardId: Id)
    ensures var r := Recent(t, scoreboardId);
      && (forall i :: 0 <= i < |r| ==> r[i].id in t.matches && r[i] == View(t, r[i].id) && Counted(t, scoreboardId, r[i].id))
      && (forall i, j :: 0 <= i < j < |r| ==> r[i].row.date >= r[j].row.date && r[i].id != r[j].id)
  {
    var keep := LogCondition(scoreboardId);
    var all := NewestMatches(t, keep);
    var r := Recent(t, scoreboardId);
    forall i | 0 <= i < |r| ensures r[i].id in t.matches && r[i] == View(t, r[i].id) && Counted(t, scoreboardId, r[i].id) {
      var v := all[i];
      assert r[i] == v;
      assert exists k :: 0 <= k < |all| && all[k].id == v.id;
      assert keep(t.matches[v.id]);
    }
    forall i, j | 0 <= i < j < |r| ensures r[i].row.date >= r[j].row.date && r[i].id != r[j].id {
      assert r[i] == all[i] && r[j] == all[j];
    }
  }

  /** A completed match of the scoreboard is left out of the log only when 50 matches at least as recent are shown. */
  lemma {:induction false} RecentNewest(t: Tables, scoreboardId: Id, id: Id)
    requires Counted(t, scoreboardId, id)
    requires forall i :: 0 <= i < |Recent(t, scoreboardId)| ==> Recent(t, scoreboardId)[i].id != id
    ensures |Recent(t, scoreboardId)| == 50 && t.matches[id].date <= Recent(t, scoreboardId)[49].row.date
  {
    var all := NewestMatches(t, LogCondition(scoreboardId));
    var r := Recent(t, scoreboardId);
    assert LogCondition(scoreboardId)(t.matches[id]);
    var k :| 0 <= k < |all| && all[k].id == id;
    assert all[k].row == t.matches[id];
    assert k >= |r|;
    assert r[49] == all[49];
  }

  function Formatted(t: Tables, vs: seq<MatchView>): (r: seq<LogEntry>)
    ensures |r| == |vs|
    ensures forall i :: 0 <= i < |r| ==> r[i] == Format(t, vs[i])
  {
    seq(|vs|, i requires 0 <= i < |vs| => Format(t, vs[i]))
  }

  /** `GET /api/public/scoreboard/:slug/matches`. */
  function MatchLog(t: Tables, slug: string): (r: Reply<seq<LogEntry>>)
    ensures r.Err? <==> ActiveBySlug(t, slug).None?
    ensures r.Err? ==> r == Err(404, "Scoreboard not found")
    ensures r.Ok? ==> |r.value| <= 50
    ensures r.Ok? ==> r.value == Formatted(t, Recent(t, ActiveBySlug(t, slug).value))
  {
    match ActiveBySlug(t, slug)
    case None => Err(404, "Scoreboard not found")
    case Some(id) => Ok(200, Formatted(t, Recent(t, id)))
  }

  /** One counted participation in a player's record. */
  datatype StatLine = StatLine(matchId: Id, date: int, location: Option<string>, teamId: Id, result: Result)

  /** The body of `GET /api/public/scoreboard/:slug/player/:playerId`. */
  datatype PlayerRecord = PlayerRecord(
    playerId: Id, name: string, photo: Option<string>, teams: seq<Id>,
    wins: nat, losses: nat, totalMatches: nat, history: seq<StatLine>)

  /** The player's participant rows in completed matches of the scoreboard, in table order. */
  function Participations(t: Tables, scoreboardId: Id, playerId: Id): (r: seq<Participant>)
    ensures forall p :: p in r <==> p in t.participants && p.playerId == playerId && Counted(t, scoreboardId, p.matchId)
    ensures forall i :: 0 <= i < |r| ==> r[i].matchId in t.matches
  {
    Filter(t.participants, (p: Participant) => p.playerId == playerId && Counted(t, scoreboardId, p.matchId))
  }

  function Lines(t: Tables, ps: seq<Participant>): (r: seq<StatLine>)
    requires forall i :: 0 <= i < |ps| ==> ps[i].matchId in t.matches
    ensures |r| == |ps|
    ensures forall i :: 0 <= i < |r| ==> r[i] == StatLine(ps[i].matchId, t.matches[ps[i].matchId].date,
      t.matches[ps[i].matchId].location, ps[i].teamId, ps[i].result)
  {
    seq(|ps|, i requires 0 <= i < |ps| =>
      StatLine(ps[i].matchId, t.matches[ps[i].matchId].date, t.matches[ps[i].matchId].location, ps[i].teamId, ps[i].result))
  }

  /** `GET /api/public/scoreboard/:slug/player/:playerId`: the scoreboard is looked up first, then the player. */
  function PlayerStats(t: Tables, slug: string, playerId: Id): (r: Reply<PlayerRecord>)
    ensures ActiveBySlug(t, slug).None? ==> r == Err(404, "Scoreboard not found")
    ensures ActiveBySlug(t, slug).Some? && playerId !in t.players ==> r == Err(404, "Player not found")
    ensures r.Ok? <==> ActiveBySlug(t, slug).Some? && playerId in t.players
    ensures r.Ok? ==> var ps := Participations(t, ActiveBySlug(t, slug).value, playerId);
      && r.value.playerId == playerId && r.value.name == t.players[playerId].name
      && r.value.teams == PlayerRoutes.TeamsOf(t, playerId)
      && r.value.wins == |WithResult(ps, Win)| && r.value.losses == |WithResult(ps, Loss)|
      && r.value.totalMatches == r.value.wins + r.value.losses == |r.value.history|
      && r.value.history == Lines(t, ps)
  {
    match ActiveBySlug(t, slug)
    case None => Err(404, "Scoreboard not found")
    case Some(sb) =>
      if playerId !in t.players then Err(404, "Player not found")
      else
        var ps := Participations(t, sb, playerId);
        var wins, losses := |WithResult(ps, Win)|, |WithResult(ps, Loss)|;
        WinnersAndLosers(ps);
        Ok(200, PlayerRecord(playerId, t.players[playerId].name, t.players[playerId].photo,
                             PlayerRoutes.TeamsOf(t, playerId), wins, losses, wins + losses, Lines(t, ps)))
  }

  /** The restricted standings agree with the player's own record on the same scoreboard. */
  lemma {:induction false} StandingAgreesWithStats(t: Tables, slug: string, m: Membership)
    requires PlayerStats(t, slug, m.playerId).Ok? && m.teamId in t.teams
    ensures var s := Standing(t, ActiveBySlug(t, slug).value, m);
      var rec := PlayerStats(t, slug, m.playerId).value;
      s.wins == rec.wins && s.losses == rec.losses
  {
    var sb := ActiveBySlug(t, slug).value;
    forall result: Result
      ensures ScoreboardResults(t, sb, m.playerId, result) == |WithResult(Participations(t, sb, m.playerId), result)|
    {
      FilterTwice(t.participants,
        (p: Participant) => p.playerId == m.playerId && Counted(t, sb, p.matchId),
        (p: Participant) => p.result == result,
        (p: Participant) => p.playerId == m.playerId && p.result == result && Counted(t, sb, p.matchId));
    }
  }
}
