# League scoreboard — a Dafny model

This project models the rules of a league scoreboard application. Its
Express/Sequelize backend keeps users, players, teams, scoreboards and matches.
Its React frontend lets admins manage them, lets scorers record matches, and
shows public standings for each scoreboard.

The model covers:

- **Database.** The database is one value, `Schema.Tables`, held by the class
  `Store.Db`, with one field per table.
  - Entity tables are maps from ids to rows.
  - Join tables (`team_players`, `scoreboard_teams`, `scorer_users`,
    `match_participants`) are sequences of rows.
  - `Schema.WellFormed` states the unique indexes, the slug pattern, unique
    e-mails and referential integrity. Every write keeps it.
  - Deletes follow the models' cascades (`Schema.DeleteMatch`,
    `DeleteScoreboard`, `DeleteTeam`, `DeletePlayer`).
- **Route handlers.**
  - Handlers that write are methods on `Db`. Each returns the HTTP reply and
    states the whole new state for every branch of the handler.
  - Handlers that only read are functions of `Tables`.
  - Modules: `MatchRoutes`, `TeamRoutes`, `PlayerRoutes`,
    `ScoreboardRoutes`, `AuthRoutes`, `PublicRoutes`.
- **Match creation.** `MatchRoutes` models the create pipeline as its checks
  (`CreateRejection`) and as the loops that run them (`ValidateCreateMatch`).
  `CreateAccepted` proves the two accept the same requests.
- **Server-side gap.** The server accepts any results and any number of
  players per team. Only the entry form (`MatchEntry.Form`) enforces one
  player per team and one winner.
- **Public endpoints.** `PublicRoutes` states the SQL of the public endpoints
  over the tables: standings, match log and player statistics. The orderings
  are proved total preorders, and the results are sorted permutations of the
  selected rows.
- **Client-side rules.**
  - The entry form and the edit form are classes whose methods update their
    state fields.
  - Pure functions cover:
    - the win rate;
    - ranks;
    - grouping by team;
    - the slug sanitiser;
    - the pickers;
    - the roster controls;
    - the route guard.
- **String helpers.** `Storage.GetFileUrl`, `ImageUtils.GetImageUrl` and the
  CORS origin predicate (`Cors`).

Inputs that the running system takes from its environment are parameters:

- the clock (`now`);
- password hashing and checking (`hash`, `validate`);
- the storage configuration (`Storage.Config`);
- `API_URL` (`apiUrl`);
- `CORS_ORIGIN` (`corsOrigin`);
- the authenticated caller (`Caller`).

## Model

| member | source | states |
|---|---|---|
| Schema.ParseMatchStatus | backend/src/models/Match.js:28-32 | a match status is accepted iff it is `scheduled`, `completed` or `cancelled`, and parses back to the same name |
| Schema.ParseResult | backend/src/models/MatchParticipant.js:35-39 | a result is accepted iff it is `win` or `loss`, and parses back to the same name |
| Schema.ParseScoreboardStatus | backend/src/models/Scoreboard.js:27-31 | a scoreboard status is accepted iff it is `active` or `inactive` |
| Schema.EnumRoundTrips | backend/src/models/Match.js:28-32 | every enumeration value's name parses back to that value |
| Schema.NewMatch | backend/src/models/Match.js:23-45 | a new match row defaults to `scheduled`, not edited, no location, no remarks, dated now |
| Schema.NewMembership | backend/src/models/TeamPlayer.js:28-33 | a new membership has no removal pending |
| Schema.DeleteMatch | backend/src/models/MatchParticipant.js:10-18 | deleting a match removes exactly its participant rows and touches no other table |
| Schema.DeleteScoreboard | backend/src/models/Match.js:10-18 | deleting a scoreboard removes its matches, their participants, its team and scorer assignments, and nothing else |
| Schema.DeleteTeam | backend/src/models/TeamPlayer.js:10-18 | deleting a team removes its memberships, scoreboard assignments and participant rows, and nothing else; the participant rows go by the `hasMany` association at `backend/src/models/index.js:28`, whose non-null foreign key makes Sequelize's default `onDelete` CASCADE |
| Schema.DeletePlayer | backend/src/models/TeamPlayer.js:19-27 | deleting a player removes its memberships and participant rows, and nothing else; the participant rows go by the `hasMany` association at `backend/src/models/index.js:23`, whose non-null foreign key makes Sequelize's default `onDelete` CASCADE |
| Schema.MembershipsWellFormed | backend/src/models/TeamPlayer.js:37-42 | a membership table with unique (team, player) pairs referring to existing rows keeps the database well formed |
| Schema.UsersWellFormed | backend/src/routes/authRoutes.js:17-20 | writing a user whose e-mail no other user has keeps e-mails unique |
| Schema.ScoreboardsWellFormed | backend/src/models/Scoreboard.js:18-24 | a scoreboard with a valid slug that no other scoreboard uses keeps slugs unique and valid |
| Schema.ScoreboardTeamsWellFormed | backend/src/models/ScoreboardTeam.js:31-36 | unique (scoreboard, team) pairs referring to existing rows keep the database well formed |
| Schema.ScorerUsersWellFormed | backend/src/models/ScorerUser.js:37-42 | unique (user, scoreboard) pairs referring to existing rows keep the database well formed |
| Schema.MatchesWellFormed | backend/src/models/Match.js:10-18 | a match row of an existing scoreboard keeps the database well formed |
| Schema.ParticipantsWellFormed | backend/src/models/MatchParticipant.js:19-34 | participant rows referring to an existing match, team and player keep the database well formed |
| Schema.DeleteMatchWellFormed | backend/src/models/MatchParticipant.js:10-18 | the cascade of a match delete leaves no dangling participant row |
| Schema.DeleteScoreboardWellFormed | backend/src/models/ScorerUser.js:19-27 | the cascade of a scoreboard delete leaves no dangling match, participant or assignment |
| Schema.DeleteTeamWellFormed | backend/src/models/ScoreboardTeam.js:19-27 | the cascade of a team delete leaves no dangling membership, assignment or participant row |
| Schema.DeletePlayerWellFormed | backend/src/models/TeamPlayer.js:19-27 | the cascade of a player delete leaves no dangling membership or participant row |
| Store.Db.FreshId | backend/src/models/Match.js:5-9 | a new row id is used by no existing row |
| Ledger.ParticipantsOf | backend/src/routes/matchRoutes.js:95-110 | the participants included with a match are exactly its rows |
| Ledger.View | backend/src/routes/matchRoutes.js:95-110 | a match as read: its row and its participant rows |
| Ledger.NewestMatches | backend/src/routes/matchRoutes.js:10-32 | exactly the selected matches, each once, as stored, ordered by date descending |
| MatchRoutes.EntryRejection | backend/src/routes/matchRoutes.js:179-205 | an entry is turned down iff it is not valid; the reason is a missing player, a player not on the team or a bad result, and never a missing player for one that exists |
| MatchRoutes.FirstTeamOutside | backend/src/routes/matchRoutes.js:169-176 | none iff every team id is assigned to the scoreboard, otherwise an unassigned one |
| MatchRoutes.FirstBadEntry | backend/src/routes/matchRoutes.js:179-206 | none iff every entry is valid, otherwise the rejection of the first invalid one |
| MatchRoutes.TeamIds | backend/src/routes/matchRoutes.js:168 | exactly the teams of the entries |
| MatchRoutes.CreateAccepted | backend/src/routes/matchRoutes.js:147-206 | the ordered checks turn down exactly the requests that are not acceptable |
| MatchRoutes.TeamsInside | backend/src/routes/matchRoutes.js:167-176 | checking each distinct team id is the same as checking every entry's team |
| MatchRoutes.EntriesValid | backend/src/routes/matchRoutes.js:178-206 | the per-entry loop passes iff every entry is valid |
| MatchRoutes.ValidateCreateMatch | backend/src/routes/matchRoutes.js:147-206 | the handler's lookups and loops give the rejection of the ordered checks |
| MatchRoutes.FindTeamOutside | backend/src/routes/matchRoutes.js:169-176 | the team loop finds the first team not assigned to the scoreboard |
| MatchRoutes.FindBadEntry | backend/src/routes/matchRoutes.js:179-206 | the participant loop finds the first entry that fails, with its rejection |
| MatchRoutes.Row | backend/src/routes/matchRoutes.js:220-225 | the stored row carries the match id and the entry's team, player and result |
| MatchRoutes.Inserted | backend/src/routes/matchRoutes.js:218-227 | one participant row per submitted entry, in order |
| MatchRoutes.InsertedRefer | backend/src/routes/matchRoutes.js:218-227 | the new rows refer to the match, teams and players that exist |
| MatchRoutes.CreateMatch | backend/src/routes/matchRoutes.js:143-227 | a rejected request writes nothing and replies with its error; an acceptable one stores a completed match by the caller, dated now unless given, plus one row per entry |
| MatchRoutes.Insert | backend/src/routes/matchRoutes.js:209-227 | the match row under a fresh id plus one participant row per entry |
| MatchRoutes.AnyResultsAccepted | backend/src/routes/matchRoutes.js:143-227 | an accepted request is still accepted with any mix of win and loss results, so the server does not require one winner |
| MatchRoutes.ExtraEntryAccepted | backend/src/routes/matchRoutes.js:168-206 | a second valid entry for an already present team is accepted, so the server does not require one player per team |
| MatchRoutes.PendingRemovalStillQualifies | backend/src/routes/matchRoutes.js:186-196 | a player whose removal is pending still counts as on the team |
| MatchRoutes.Replaced | backend/src/routes/matchRoutes.js:285-298 | other matches' rows are kept, and the match's rows are exactly those of the entries the database accepts |
| MatchRoutes.StatusValue | backend/src/models/Match.js:28-32 | the status given is stored only when it names an enumeration value |
| MatchRoutes.ReplaceParticipants | backend/src/routes/matchRoutes.js:287-297 | destroying then re-creating the rows leaves the participant table `Replaced` |
| MatchRoutes.UpdateMatch | backend/src/routes/matchRoutes.js:256-301 | 404 for a missing match, 403 without access, 400 for an admin without remarks, each with no write; otherwise the edit |
| MatchRoutes.ApplyEdit | backend/src/routes/matchRoutes.js:276-301 | an admin edit replaces the participants when given, marks the match edited and stores the remarks; a scorer edit writes only location, date and status |
| MatchRoutes.ScorerEditKeepsMarks | backend/src/routes/matchRoutes.js:276-301 | a scorer's edit keeps `isEdited`, the remarks and the scoreboard |
| MatchRoutes.DeleteMatch | backend/src/routes/matchRoutes.js:324-343 | 404 or 403 with no change, otherwise the match and its participant rows are deleted |
| MatchRoutes.GetMatch | backend/src/routes/matchRoutes.js:93-135 | the match with its participants iff it exists and the caller has access; 404 or 403 otherwise |
| MatchRoutes.ScoreboardMatches | backend/src/routes/matchRoutes.js:42-85 | 404 or 403 first; otherwise every match of the scoreboard and no other, each once, newest first |
| MatchRoutes.ListedMatchReadable | backend/src/routes/matchRoutes.js:42-135 | every match listed for a scoreboard can be read on its own with the same view |
| MatchRoutes.MyMatches | backend/src/routes/matchRoutes.js:8-34 | exactly the matches the caller recorded, newest first |
| TeamRoutes.Roster | backend/src/routes/teamRoutes.js:34-42 | one entry per membership of the team, with its removal flag |
| TeamRoutes.NameOrderTotal | backend/src/routes/teamRoutes.js:22 | ordering teams by name is a total preorder |
| TeamRoutes.ListTeams | backend/src/routes/teamRoutes.js:14-24 | every team once, with its roster, by name ascending |
| TeamRoutes.GetTeam | backend/src/routes/teamRoutes.js:32-48 | the team with its roster, or 404 |
| TeamRoutes.CreateTeam | backend/src/routes/teamRoutes.js:56-70 | 400 without a name, otherwise one new team whose logo is the uploaded file's URL or else the given logo |
| TeamRoutes.UpdateTeam | backend/src/routes/teamRoutes.js:78-97 | 404 for a missing team, otherwise only that team's given columns change |
| TeamRoutes.UpdateKeepsAbsentFields | backend/src/routes/teamRoutes.js:78-97 | a field the request leaves out keeps its value, an empty request keeps the team, and re-sending the same request changes nothing further |
| TeamRoutes.DeleteTeam | backend/src/routes/teamRoutes.js:105-117 | 404 with no change, otherwise the team and its cascades |
| TeamRoutes.AddPlayer | backend/src/routes/teamRoutes.js:125-158 | 400 without a player, 404 for team then player, then: a new pair adds one unflagged row, a flagged pair is unflagged, an unflagged pair is a 400; other rows unchanged |
| TeamRoutes.RemovePlayer | backend/src/routes/teamRoutes.js:178-198 | 404 when the pair is absent; an admin deletes only that row, anyone else flags only that row |
| TeamRoutes.DecideRemoval | backend/src/routes/teamRoutes.js:206-227 | 404 when absent; approve deletes the row, reject clears its flag, any other action is a 400 with no change |
| PlayerRoutes.NameOrderTotal | backend/src/routes/playerRoutes.js:14-16 | ordering players by name is a total preorder |
| PlayerRoutes.ListPlayers | backend/src/routes/playerRoutes.js:14-17 | every player once, as stored, by name ascending |
| PlayerRoutes.TeamsOf | backend/src/routes/playerRoutes.js:27-34 | exactly the teams the player is a member of |
| PlayerRoutes.GetPlayer | backend/src/routes/playerRoutes.js:25-40 | the player with its teams, or 404 |
| PlayerRoutes.CreatePlayer | backend/src/routes/playerRoutes.js:48-62 | 400 without a name, otherwise one new player whose photo is the uploaded file's URL or else the given photo |
| PlayerRoutes.UpdatePlayer | backend/src/routes/playerRoutes.js:70-89 | 404 with no change for a missing player, otherwise only that player's given columns change |
| PlayerRoutes.UpdateKeepsAbsentFields | backend/src/routes/playerRoutes.js:70-89 | a field the request leaves out keeps its value, an empty request keeps the player, and re-sending the same request changes nothing further |
| PlayerRoutes.DeletePlayer | backend/src/routes/playerRoutes.js:97-109 | 404 with no change, otherwise the player and its cascades |
| PlayerRoutes.UploadReplacesPhoto | backend/src/routes/playerRoutes.js:80-88 | with an uploaded file the stored photo is that file's URL, whatever the body says |
| ScoreboardRoutes.AllScoreboards | backend/src/routes/scoreboardRoutes.js:13-35 | every scoreboard once, as stored, newest first |
| ScoreboardRoutes.AssignedScoreboards | backend/src/routes/scoreboardRoutes.js:38-53 | exactly the scoreboards the user is assigned to, each once |
| ScoreboardRoutes.ListScoreboards | backend/src/routes/scoreboardRoutes.js:8-56 | all scoreboards for an admin, the assigned ones for anyone else |
| ScoreboardRoutes.GetScoreboard | backend/src/routes/scoreboardRoutes.js:64-114 | the row iff it exists and the caller is admin or assigned; 404 or 403 otherwise |
| ScoreboardRoutes.ListedAreAccessible | backend/src/routes/scoreboardRoutes.js:8-119 | every listed scoreboard can be read by the same caller |
| ScoreboardRoutes.AssignmentGrantsAccess | backend/src/routes/scoreboardRoutes.js:100-112 | a non-admin can read a scoreboard iff it exists and they hold an assignment to it |
| ScoreboardRoutes.StatusField | backend/src/models/Scoreboard.js:27-31 | an absent status is left out; a given one is stored iff it names an enumeration value |
| ScoreboardRoutes.CreateScoreboard | backend/src/routes/scoreboardRoutes.js:122-144 | 400 without name or slug, 400 for a used slug, otherwise one new scoreboard by the caller, `active` unless a status is given; an invalid slug or status fails with no write |
| ScoreboardRoutes.Edited | backend/src/routes/scoreboardRoutes.js:169 | an update keeps the creator and creation time, stores a given slug, and with no fields changes nothing |
| ScoreboardRoutes.UpdateScoreboard | backend/src/routes/scoreboardRoutes.js:152-170 | 404 for a missing scoreboard; a changed slug already in use is a 400, re-sending the same slug is not; an invalid slug or status is a 500 with no write; otherwise only that row becomes `Edited` |
| ScoreboardRoutes.DeleteScoreboard | backend/src/routes/scoreboardRoutes.js:178-187 | 404 with no change, otherwise the scoreboard and its cascades |
| ScoreboardRoutes.AssignTeam | backend/src/routes/scoreboardRoutes.js:195-223 | 400, 404 scoreboard, 404 team, 400 duplicate in that order, otherwise exactly one assignment is added |
| ScoreboardRoutes.RemoveTeam | backend/src/routes/scoreboardRoutes.js:243-256 | 404 when not assigned, otherwise only that pair is removed |
| ScoreboardRoutes.AssignScorer | backend/src/routes/scoreboardRoutes.js:264-295 | 400, 404 scoreboard, 404 user, 400 role, 400 duplicate in that order, otherwise one `scorer` row is added |
| ScoreboardRoutes.RemoveScorer | backend/src/routes/scoreboardRoutes.js:319-332 | 404 when not assigned, otherwise only that pair is removed |
| AuthRoutes.UserByEmail | backend/src/routes/authRoutes.js:17 | a user with that e-mail, or none iff no user has it |
| AuthRoutes.UserByEmailUnique | backend/src/routes/authRoutes.js:17-20 | with unique e-mails the lookup finds the one user |
| AuthRoutes.Register | backend/src/routes/authRoutes.js:9-35 | 400 without e-mail or password, 400 for a used e-mail, otherwise one new user with the hashed password and the given role or `scorer` |
| AuthRoutes.Login | backend/src/routes/authRoutes.js:47-71 | 400 without credentials; succeeds iff the e-mail exists and the password checks; otherwise the same 401 |
| AuthRoutes.ScorerIds | backend/src/routes/authRoutes.js:89-92 | exactly the users whose role is `scorer` |
| AuthRoutes.ScorerRows | backend/src/routes/authRoutes.js:89-92 | each scorer once, as stored |
| AuthRoutes.ListUsers | backend/src/routes/authRoutes.js:83-94 | 403 for a non-admin, otherwise the scorers |
| AuthRoutes.Edited | backend/src/routes/authRoutes.js:123-128 | the role is kept; the password changes only when a non-empty one is given, and is then hashed |
| AuthRoutes.UpdateUser | backend/src/routes/authRoutes.js:102-129 | 403, 404, 400 for a changed e-mail already in use, otherwise only that user changes |
| AuthRoutes.EditedEmailFree | backend/src/routes/authRoutes.js:115-121 | an update that passes the e-mail check keeps e-mails unique |
| PublicRoutes.ActiveBySlug | backend/src/routes/publicRoutes.js:38-40 | a scoreboard with the slug and status `active`, or none iff there is none |
| PublicRoutes.ActiveBySlugFinds | backend/src/routes/publicRoutes.js:11-20 | an active scoreboard is found by its slug; an inactive one never is |
| PublicRoutes.BoardTeams | backend/src/routes/publicRoutes.js:13-19 | exactly the teams assigned to the scoreboard |
| PublicRoutes.PublicScoreboard | backend/src/routes/publicRoutes.js:7-26 | 404 iff no active scoreboard has the slug; otherwise it with its teams |
| PublicRoutes.RankLeTotal | backend/src/routes/publicRoutes.js:65 | any two rows are comparable by wins desc, losses asc, name asc |
| PublicRoutes.RankLeTransitive | backend/src/routes/publicRoutes.js:105 | that ordering is transitive |
| PublicRoutes.PlayerRankTotal | backend/src/routes/publicRoutes.js:65 | the player ordering is a total preorder |
| PublicRoutes.TeamRankTotal | backend/src/routes/publicRoutes.js:105 | the team ordering is a total preorder |
| PublicRoutes.Entrants | backend/src/routes/publicRoutes.js:57-63 | exactly the memberships whose team is assigned to the scoreboard |
| PublicRoutes.AllResults | backend/src/routes/publicRoutes.js:55-61 | the count of all the player's rows with that result, zero iff there are none |
| PublicRoutes.ScoreboardResults | backend/src/routes/publicRoutes.js:62 | the count of the player's rows with that result in completed matches of the scoreboard |
| PublicRoutes.StandingAsWritten | backend/src/routes/publicRoutes.js:55-64 | a standing row whose sums count every participation of the player |
| PublicRoutes.Standing | backend/src/routes/publicRoutes.js:55-64 | a standing row whose sums count only completed matches of the scoreboard |
| PublicRoutes.PlayerStandingsAsWritten | backend/src/routes/publicRoutes.js:47-71 | 404 for an unknown slug; otherwise the as-written rows of the entrants, sorted |
| PublicRoutes.PlayerStandings | backend/src/routes/publicRoutes.js:47-71 | 404 for an unknown slug; otherwise the scoreboard-filtered rows of the entrants, sorted |
| PublicRoutes.StandingsRows | backend/src/routes/publicRoutes.js:57-64 | a membership has a row iff its team is assigned to the scoreboard |
| PublicRoutes.TwoTeamsTwoRows | backend/src/routes/publicRoutes.js:57-64 | a player on two assigned teams appears in two rows |
| PublicRoutes.CrossBoardWin | backend/src/routes/publicRoutes.js:55-62 | a win on another scoreboard counts as written and not when filtered |
| PublicRoutes.ScoreboardResultsBounded | backend/src/routes/publicRoutes.js:55-62 | filtered sums never exceed the as-written ones, and equal them when all of the player's matches are counted |
| PublicRoutes.DecidedBounded | backend/src/routes/publicRoutes.js:97-98 | a team's wins and losses are sets of completed matches of the scoreboard |
| PublicRoutes.WinAndLossTogether | backend/src/routes/publicRoutes.js:97-98 | a match where the team has a winner and a loser counts as both a win and a loss |
| PublicRoutes.Contenders | backend/src/routes/publicRoutes.js:99-103 | exactly the scoreboard's team assignments |
| PublicRoutes.TeamRows | backend/src/routes/publicRoutes.js:96-104 | one row per assigned team with the counts of distinct matches won and lost |
| PublicRoutes.TeamStandings | backend/src/routes/publicRoutes.js:79-111 | 404 for an unknown slug; otherwise the team rows, sorted |
| PublicRoutes.TeamStandingsBounded | backend/src/routes/publicRoutes.js:97-98 | no team has more wins or losses than the scoreboard has completed matches |
| PublicRoutes.ScorerName | backend/src/routes/publicRoutes.js:168 | the creator's name when it is not empty, never empty |
| PublicRoutes.Sides | backend/src/routes/publicRoutes.js:171-178 | the player and team of each participant, in order |
| PublicRoutes.WithResult | backend/src/routes/publicRoutes.js:161-162 | exactly the participants with that result |
| PublicRoutes.WithResultKeepsOrder | backend/src/routes/publicRoutes.js:161-162 | the participants with a result keep their original order: the split distributes over concatenation and keeps a single participant iff it has the result |
| PublicRoutes.WinnersAndLosers | backend/src/routes/publicRoutes.js:161-162 | winners and losers together account for every participant |
| PublicRoutes.Format | backend/src/routes/publicRoutes.js:160-179 | a log entry with the match's fields, scorer name, winners and losers |
| PublicRoutes.Recent | backend/src/routes/publicRoutes.js:131-157 | at most 50 matches, a prefix of the newest-first completed matches of the scoreboard |
| PublicRoutes.RecentRows | backend/src/routes/publicRoutes.js:131-157 | each listed match is a counted match as stored, each once, newest first |
| PublicRoutes.RecentNewest | backend/src/routes/publicRoutes.js:155-156 | a counted match is left out only when 50 newer or equal ones are listed |
| PublicRoutes.MatchLog | backend/src/routes/publicRoutes.js:119-182 | 404 for an unknown slug; otherwise the formatted recent matches |
| PublicRoutes.Participations | backend/src/routes/publicRoutes.js:217-233 | exactly the player's rows in completed matches of the scoreboard |
| PublicRoutes.Lines | backend/src/routes/publicRoutes.js:245-251 | one history line per participation with its match's date and location |
| PublicRoutes.PlayerStats | backend/src/routes/publicRoutes.js:190-252 | 404 for an unknown slug, then for an unknown player; otherwise wins, losses, total and history of the counted participations |
| PublicRoutes.StandingAgreesWithStats | backend/src/routes/publicRoutes.js:217-236 | the filtered standing row and the player statistics give the same wins and losses |
| Storage.Region | backend/src/services/storage.js:10 | never empty, so every S3 host names a region; a configured region wins over the default |
| Storage.GetFileUrl | backend/src/services/storage.js:76-104 | null iff the path is falsy; an `http(s)://` path is kept |
| Storage.S3UrlIsHttps | backend/src/services/storage.js:86-91 | an S3 URL begins with `https://` |
| Storage.LocalPathShape | backend/src/services/storage.js:102-103 | a local URL begins with `/uploads/` and ends with the file's base name |
| Storage.FileUrlShape | backend/src/services/storage.js:76-104 | every result is absolute, or `/uploads/...` in local mode, ending with the base name of a bare path |
| Storage.FileUrlIdempotent | backend/src/services/storage.js:76-104 | applying `getFileUrl` to its own result changes nothing |
| Storage.ImageField | backend/src/routes/teamRoutes.js:59-63 | an uploaded file's URL overrides the body's image field |
| Cors.Normalize | backend/src/server.js:16-21 | an origin not starting with `http` gets `https://` in front |
| Cors.NormalizeIdempotent | backend/src/server.js:16-21 | normalising twice is normalising once |
| Cors.Normalized | backend/src/server.js:12-21 | exactly the normalised non-empty entries |
| Cors.AllowedOriginsContents | backend/src/server.js:12-21 | the two development origins and the normalised configured one |
| Cors.NoOriginAllowed | backend/src/server.js:26 | a request without an origin is allowed |
| Cors.DevOriginsAllowed | backend/src/server.js:13-14 | both development origins are always allowed |
| Cors.ConfiguredOriginAllowed | backend/src/server.js:15-20 | a configured bare host is allowed as its `https://` origin |
| Cors.RenderOriginAllowed | backend/src/server.js:28 | any origin ending in `.onrender.com` is allowed |
| Cors.OriginAllowedExactly | backend/src/server.js:24-33 | a present origin is allowed iff it is listed or ends in `.onrender.com` |
| ImageUtils.GetImageUrl | frontend/src/utils/imageUtils.js:10-18 | null iff the path is falsy; an absolute URL is kept |
| ImageUtils.RelativePathShape | frontend/src/utils/imageUtils.js:16-17 | a relative path becomes `API_URL`, one `/`, then the path |
| ImageUtils.GetImageUrlIdempotent | frontend/src/utils/imageUtils.js:10-18 | with an absolute `API_URL`, formatting twice is formatting once |
| ImageUtils.LocalUploadServedByApi | frontend/src/utils/imageUtils.js:16-17 | a locally stored upload is shown as `API_URL` followed by its stored path |
| ImageUtils.LocalStoredPath | backend/src/services/storage.js:98-103 | a local upload of a relative path is stored under `/uploads/` |
| AppRoutes.Guard | frontend/src/App.jsx:10-26 | loading first, then the login redirect without a user; a shown page is the one asked for |
| AppRoutes.GuardPasses | frontend/src/App.jsx:21-25 | a signed-in user passes iff no role is required, the role matches, or they are an admin; otherwise they go to `/` |
| AppRoutes.Root | frontend/src/App.jsx:55-66 | `/` redirects to login without a user, to the admin area iff admin |
| AppRoutes.AdminEverywhere | frontend/src/App.jsx:36-43 | an admin sees both areas and lands in the admin area |
| AppRoutes.ScorerSentToScorerArea | frontend/src/App.jsx:21-25 | a scorer asking for the admin area ends in the scorer area |
| AppRoutes.OtherRoleLoops | frontend/src/App.jsx:21-25 | a user of any other role never settles on a page |
| AppRoutes.RootCorrected | frontend/src/App.jsx:55-66 | the root sends a scorer to the scorer area and an admin to the admin area, anyone else to login |
| AppRoutes.CorrectedSettles | frontend/src/App.jsx:55-66 | with the corrected root every route settles within two redirects |
| MatchEntry.WithoutTeam | frontend/src/pages/scorer/MatchEntry.jsx:38 | exactly the entries of other teams |
| MatchEntry.AllLoss | frontend/src/pages/scorer/MatchEntry.jsx:53 | no winner remains |
| MatchEntry.Added | frontend/src/pages/scorer/MatchEntry.jsx:45-58 | the other teams' entries in order, then the new entry; a win turns the others into losses, a loss keeps them |
| MatchEntry.AddedOnlyEntryOfTeam | frontend/src/pages/scorer/MatchEntry.jsx:48-56 | the new entry is the only one of its team |
| MatchEntry.AddedOnePerTeam | frontend/src/pages/scorer/MatchEntry.jsx:45-58 | one entry per team is kept by adding |
| MatchEntry.AddedWinners | frontend/src/pages/scorer/MatchEntry.jsx:52-56 | adding a winner leaves exactly one winner; adding a loser adds no winner |
| MatchEntry.FindTeam | frontend/src/pages/scorer/MatchEntry.jsx:63 | an entry of the team, or none iff there is none |
| MatchEntry.SubmitWarning | frontend/src/pages/scorer/MatchEntry.jsx:72-89 | submission goes ahead iff at least two teams, one entry per team, exactly one winner |
| MatchEntry.SubmittedFormComplete | frontend/src/pages/scorer/MatchEntry.jsx:75-89 | a submitted form has an entry for every selected team and exactly one winner |
| MatchEntry.AutoFillKeepsPlayer | frontend/src/pages/scorer/MatchEntry.jsx:60-70 | marking a team keeps its selected player and changes only the result |
| MatchEntry.Form.constructor | frontend/src/pages/scorer/MatchEntry.jsx:13-18 | the form starts with no teams and no participants |
| MatchEntry.Form.ToggleTeam | frontend/src/pages/scorer/MatchEntry.jsx:33-43 | deselecting drops the team and its entries; selecting appends the team |
| MatchEntry.Form.AddParticipant | frontend/src/pages/scorer/MatchEntry.jsx:45-58 | the participants become `Added`, keeping one per team |
| MatchEntry.Form.AutoFillTeam | frontend/src/pages/scorer/MatchEntry.jsx:60-70 | a warning and no change without a selected player, otherwise the player is re-added with the result |
| MatchEntry.Form.Submit | frontend/src/pages/scorer/MatchEntry.jsx:72-89 | the alert of the first failing check, or none |
| EditMatch.Loaded | frontend/src/pages/admin/EditMatch.jsx:29-35 | the form keeps each participant's team, player and result |
| EditMatch.Toggled | frontend/src/pages/admin/EditMatch.jsx:45-55 | the player's entries take the result; a win makes the others losses; teams, players and order are kept |
| EditMatch.ToggledIdempotent | frontend/src/pages/admin/EditMatch.jsx:45-55 | toggling the same choice twice is toggling it once |
| EditMatch.ToggledWinner | frontend/src/pages/admin/EditMatch.jsx:50-54 | marking a player with one entry as winner leaves exactly one winner |
| EditMatch.EditWarning | frontend/src/pages/admin/EditMatch.jsx:59-70 | the edit is sent iff remarks are given and there is exactly one winner |
| EditMatch.Posted | frontend/src/pages/admin/EditMatch.jsx:73 | the sent array has each entry's team, player and result name |
| EditMatch.EditForm.constructor | frontend/src/pages/admin/EditMatch.jsx:10-15 | the form starts empty: no participants, no location, no remarks |
| EditMatch.EditForm.Load | frontend/src/pages/admin/EditMatch.jsx:21-37 | the form holds the match's participants, location and remarks |
| EditMatch.EditForm.ToggleResult | frontend/src/pages/admin/EditMatch.jsx:45-57 | the participants become `Toggled` |
| EditMatch.EditForm.Submit | frontend/src/pages/admin/EditMatch.jsx:59-70 | the alert of the first failing check, or none |
| EditMatch.LoadedResolvable | frontend/src/pages/admin/EditMatch.jsx:29-35 | a loaded form refers only to existing teams and players |
| EditMatch.PostedInsertable | frontend/src/pages/admin/EditMatch.jsx:73 | a form's posted entries are all rows the database accepts |
| MyMatches.TeamOrder | frontend/src/pages/scorer/MyMatches.jsx:56 | each team of the participants once, in order of first appearance |
| MyMatches.GroupOf | frontend/src/pages/scorer/MyMatches.jsx:57-59 | a non-empty group of exactly the team's participants in their original order; its first member is the team's first participant in the match, and the group is the winner iff that participant won |
| MyMatches.Groups | frontend/src/pages/scorer/MyMatches.jsx:56-59 | one group per team in `TeamOrder` |
| MyMatches.GroupsPartition | frontend/src/pages/scorer/MyMatches.jsx:56-58 | every participant lies in exactly one group |
| MyMatches.GroupsInFirstAppearanceOrder | frontend/src/pages/scorer/MyMatches.jsx:56 | groups follow the first appearance of their teams |
| MyMatches.AdminEditShowsRemarks | frontend/src/pages/scorer/MyMatches.jsx:43-47 | remarks never show without the badge; an admin edit with remarks shows both; a scorer edit changes neither |
| ScoreboardView.WinRate | frontend/src/pages/public/Scoreboard.jsx:173-174 | 0 without decided matches, between 0 and 100, 0 without wins, 100 without losses |
| ScoreboardView.WinRateRounds | frontend/src/pages/public/Scoreboard.jsx:174 | the rate is `100 * wins / total` rounded to the nearest whole number, halves up |
| ScoreboardView.WinRateMonotone | frontend/src/pages/public/Scoreboard.jsx:174 | more wins out of the same total never lower the rate |
| ScoreboardView.Rank | frontend/src/pages/public/Scoreboard.jsx:132 | ranks start at 1 |
| ScoreboardView.TeamRanksFollowStandings | frontend/src/pages/public/Scoreboard.jsx:172-179 | a higher-ranked team row is never behind a lower one in the standings ordering |
| ScoreboardView.PlayerRanksFollowStandings | frontend/src/pages/public/Scoreboard.jsx:129-132 | the same for player rows |
| ScoreboardView.TeamEmptyStateIffUnassigned | frontend/src/pages/public/Scoreboard.jsx:218-222 | the team table's empty message shows iff no existing team is assigned to the scoreboard |
| ScoreboardView.PlayerEmptyStateIffNoEntrants | frontend/src/pages/public/Scoreboard.jsx:218-222 | the player table's empty message shows iff no existing player is on an existing team assigned to the scoreboard |
| ScoreboardView.AssignedTeamNoEmptyState | frontend/src/pages/public/Scoreboard.jsx:218 | a scoreboard with an assigned team never shows an empty team table |
| ScoreboardView.LogBadgesFollowMatch | frontend/src/pages/public/Scoreboard.jsx:237-257 | the log's badge and remarks follow the same conditions as the scorer's list |
| ScoreboardsPage.Sanitize | frontend/src/pages/admin/Scoreboards.jsx:222 | same length, only `[a-z0-9-]`, such characters kept, capitals lower-cased |
| ScoreboardsPage.SanitizeIdempotent | frontend/src/pages/admin/Scoreboards.jsx:222 | sanitising twice is sanitising once |
| ScoreboardsPage.SanitizedIsSlug | frontend/src/pages/admin/Scoreboards.jsx:222 | a non-empty sanitised slug passes the server's slug pattern |
| ScoreboardsPage.SanitizeFixedPoints | frontend/src/pages/admin/Scoreboards.jsx:222 | a string is unchanged iff it is already made of `[a-z0-9-]` |
| ScoreboardsPage.ToggledStatus | frontend/src/pages/admin/Scoreboards.jsx:106 | `inactive` iff the status was `active`, otherwise `active` |
| ScoreboardsPage.ToggledStatusSwaps | frontend/src/pages/admin/Scoreboards.jsx:106 | on the two stored statuses the toggle swaps them and is an involution |
| ScoreboardsPage.OfferedScorers | frontend/src/pages/admin/Scoreboards.jsx:266 | exactly the scorers not assigned to the scoreboard |
| ScoreboardsPage.OfferedScorerUnassigned | frontend/src/pages/admin/Scoreboards.jsx:266 | an offered scorer has no assignment row to the scoreboard |
| ScoreboardsPage.OfferedTeamUnassigned | frontend/src/pages/admin/Scoreboards.jsx:405-407 | an offered team is not assigned to the scoreboard |
| Pickers.Offered | frontend/src/pages/admin/Scoreboards.jsx:405-407 | exactly the items not taken whose name contains the search, ignoring case |
| Pickers.EmptySearchOffersAll | frontend/src/pages/admin/Scoreboards.jsx:405-407 | an empty search offers every item not taken |
| Pickers.SearchIgnoresCase | frontend/src/pages/admin/Scoreboards.jsx:407 | the search's case does not matter |
| Pickers.ShowsNoneFound | frontend/src/pages/admin/Scoreboards.jsx:421-423 | "No teams found" shows iff no item not taken matches |
| TeamsPage.FilteredPlayers | frontend/src/pages/admin/Teams.jsx:166-168 | exactly the players not on the team whose name contains the search, ignoring case |
| TeamsPage.RowControls | frontend/src/pages/admin/Teams.jsx:369-381 | a live remove button iff no request is pending, whoever is signed in; approve and reject iff an admin faces a pending request; a non-admin always has the button, reading "Requested" iff the request is pending |
| TeamsPage.ConfirmationFollowsRoute | frontend/src/pages/admin/Teams.jsx:170-181 | for the same role, the "Remove Player" danger prompt iff the removal route deletes the row, the "Request Removal" warning iff it only flags it; no other row changes |
| TeamsPage.ControlsFollowRequests | frontend/src/pages/admin/Teams.jsx:369-381 | a live remove button iff no request is pending; a non-admin sees "Requested" iff one is |
| TeamsPage.Preview | frontend/src/pages/admin/Teams.jsx:427 | at most five, a prefix of the roster, all of a short one |
| TeamsPage.MoreCount | frontend/src/pages/admin/Teams.jsx:432-436 | shown iff the roster has more than five |
| TeamsPage.PreviewAccountsForRoster | frontend/src/pages/admin/Teams.jsx:427-436 | preview plus "+N more" count the whole roster |
| TeamsPage.ShowsAlertDot | frontend/src/pages/admin/Teams.jsx:422-424 | the dot shows iff an admin has some roster row to approve or reject |
| TeamsPage.AlertDotMeansPending | frontend/src/pages/admin/Teams.jsx:422-424 | the dot shows iff some player on the roster has a pending removal request |
| TeamsPage.AlertDotFromDatabase | frontend/src/pages/admin/Teams.jsx:422-424 | the dot shows iff the team has a flagged membership in the database |
| TeamsPage.QuickAddWarning | frontend/src/pages/admin/Teams.jsx:121-124 | the warning iff the name is blank or whitespace |
| TeamsPage.QuickAddAccepted | frontend/src/pages/admin/Teams.jsx:121-124 | a name that passes is a non-empty name the server accepts |
| Strings.ToLower | frontend/src/pages/admin/Scoreboards.jsx:222 | same length, capitals shifted to lower case, all else kept |
| Strings.TrimEmpty | frontend/src/pages/admin/Teams.jsx:121 | a trimmed string is empty iff it is all whitespace |
| Strings.Basename | backend/src/services/storage.js:102 | the base name has no `/` and is the whole of a path without one |

## Left out

- Express and Sequelize plumbing is left out: routing, the nested `include` response shapes and the re-fetch after a write. A successful write replies with the id of the row (`Record`) or its message.
- Every `catch` branch's 500 reply is left out, except where a database constraint fails: invalid slug, invalid status, refused participant rows. Those are modelled.
- Handlers run as one atomic step. Concurrent requests and the order of `Promise.all` inserts are not modelled.
- The `authenticate`, `requireAdmin` and `requireScorer` middleware are left out. The caller's id and role are an input. `backend/src/middleware/auth.js` is not part of this model.
- JWT signing, the token in the reply, password hashing and `validatePassword` are parameters. `backend/src/models/User.js` is not part of this model: unique e-mails are an invariant the register and update checks keep.
- `getStorage`, `deleteFile`, multer uploads, random file names and S3 or file-system I/O are left out. An upload is its stored path. Deleting the old image on update or delete is not modelled.
- Ids are natural numbers from a counter (`Db.nextId`), not UUIDs. Error messages that interpolate an id use its decimal digits.
- Names are ordered by code units. The database's collation is not modelled.
- Dates are integers, and the clock is the `now` parameter. Time zones and the form's default date are left out. `createdAt` is a scoreboard column that is set from `now`.
- `Strings.ToLower` lower-cases only ASCII capitals. JavaScript's `toLowerCase` also maps other scripts and can change the length. `ScoreboardsPage.Sanitize`, `Pickers.Offered` and `TeamsPage.FilteredPlayers` inherit this.
- ScoreboardsPage.Sanitize: strings here are sequences of Unicode scalar values. The slug field's regex has no `u` flag, so the browser replaces each UTF-16 code unit. A character outside the Basic Multilingual Plane therefore becomes two dashes in the browser and one in the model (`a😀` gives `a--` there and `a-` here).
- ScoreboardView.WinRate: exact integer rounding, halves up, stands in for floating-point `Math.round`. The two disagree on real inputs: for 29 wins of 200, `(29/200)*100` is 14.499999999999998 in double arithmetic, so the page shows 14% where the model gives 15%.
- The unused `wins_raw` column of the team-standings query is left out.
- JSON `null` in a request body is treated like an absent field.
- An entry with a missing team or player id is not modelled separately. Every entry carries ids.
- Images, players' photos and teams' logos in read replies are not modelled beyond the stored columns.
- Rendering, CSS, `NotificationContext`, `ConfirmModal`, the dashboards, `Login`, `Players` and `Scorers` pages are left out. So are the one-shot `seed.js` and `migrate.js` scripts.
- The CORS log line for a blocked origin is left out.
- `API_URL` is the `apiUrl` parameter.
- `AuthContext` is not part of this model. The guard takes `loading` and the user's role as given.
- ScoreboardRoutes.Edited: states only the creator, the creation time, the given slug and the no-op case. The other columns follow `Common.Assign` in its body.

## Findings

| source | as written | input that shows it | evidently intended | confidence | as-written member | corrected member |
|---|---|---|---|---|---|---|
| backend/src/routes/publicRoutes.js:55-62 | the player win and loss sums add up every participation row of the player. The scoreboard and `completed` filter sits only on the outer-joined `matches`, so rows of other scoreboards still count | a player on a team of scoreboard 0 with one win recorded on scoreboard 1 shows 1 win on scoreboard 0 (`CrossBoard`) | sums over completed matches of this scoreboard only, as the team standings and the player statistics of the same file do | not executed | PublicRoutes.PlayerStandingsAsWritten | PublicRoutes.PlayerStandings |
| frontend/src/App.jsx:21-25 | the root sends every non-admin to `/scorer`. That guard sends a role other than `scorer` or `admin` back to `/` | a signed-in user with role `viewer` (register passes any role through, so this arises if the `users.role` column accepts it) bounces between `/` and `/scorer` forever (`OtherRoleLoops`) | a user who may use neither area is sent somewhere that settles | not executed | AppRoutes.OtherRoleLoops | AppRoutes.RootCorrected |
