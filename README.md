# citizen-scoring-bot scoring core in Dafny

This project models the scoring, levelling, badge and ranking services of citizen-scoring-bot, a
community bot that turns chat activity into points, experience, levels, badges and leaderboards,
together with the bot's voice-session tracker.

The relational store behind the services is a `Database` object with one field per table:
- users, kept as a map plus the storage order;
- the append-only point ledger;
- the badge catalog;
- the user–badge rows, keyed by (user, badge) and holding `earnedAt`.

Each store operation of the source is two things in the model:
- a method that updates these fields step by step;
- a pure function of a store snapshot that gives the resulting state.

Each method is proved to reach exactly the state its function gives, and to keep the store
invariant `StoreValid`. Among other things, that invariant says every user's points, experience
and level are what replaying the ledger from the start gives. The properties the services promise
are lemmas about those functions.

Time and calendar cutoffs are integer parameters, in milliseconds:
- `now`;
- one week ago and one month ago, for the windowed rankings;
- six months ago, for the veteran badge.

The scoring defaults are constants: base 1 point, quality multiplier 2, reaction threshold 3,
voice rate 1/2 point per minute, spam penalty -5.

Modules, one per file:
- `Leveling` (leveling.dfy): the level curve, exactly, with an integer square root.
- `Store` (store.dfy): tables, ledger replay, the store invariant and the `Database` class.
- `Text` (text.dfy): the JavaScript string operations the quality classifier and the ledger
  reasons use.
- `Users` (user_service.dfy): the upsert, the stats query and the all-time rank.
- `Scoring` (scoring_service.dfy): the award transaction, the spam window, the quality classifier,
  and the message, reaction, voice and penalty handlers. `ScoringService` is a class holding the
  spam tracker.
- `Badges` (badge_service.dfy): the default catalog and its bootstrap, the requirement
  interpreter, the award loop and the manual award.
- `Ranking` (ranking_service.dfy): the leaderboards, the window sums, the ranks and the monthly
  top contributor.
- `Voice` (voice_state_update.dfy): the voice-state handler. `VoiceHandler` is a class holding the
  session map.

## Model

| member | source | states |
|---|---|---|
| Leveling.Isqrt | citizen-scoring-bot/src/services/UserService.ts:108 | the result r is the integer square root: r*r <= n < (r+1)*(r+1) |
| Leveling.CalculateLevel | citizen-scoring-bot/src/services/UserService.ts:107-109 | the level is at least 1, and experience lies in [expFor(level-1), expFor(level)) |
| Leveling.ExperienceForNextLevel | citizen-scoring-bot/src/services/UserService.ts:111-113 | the threshold is never negative and is 0 exactly at level 0 |
| Leveling.ExperienceForNextLevelIncreasing | citizen-scoring-bot/src/services/UserService.ts:111-113 | thresholds strictly increase with the level from 0 up |
| Leveling.LevelIsUnique | citizen-scoring-bot/src/services/UserService.ts:107-113 | any level whose bracket holds the experience is the computed level |
| Leveling.LevelMonotone | citizen-scoring-bot/src/services/UserService.ts:107-109 | more experience never gives a lower level |
| Leveling.LevelOfZero | citizen-scoring-bot/src/services/UserService.ts:107-109 | experience 0 is level 1 |
| Leveling.ProgressWithinLevel | citizen-scoring-bot/src/services/UserService.ts:111-113 | 0 <= e - expFor(L-1) < expFor(L) - expFor(L-1) for L the computed level |
| Store.Clamp | citizen-scoring-bot/src/services/ScoringService.ts:28 | max(0, x): at least x, and either x or 0 |
| Store.LedgerOfAbsent | citizen-scoring-bot/src/services/ScoringService.ts:42-50 | a ledger without rows for a user replays to 0 points and 0 experience |
| Store.LedgerAppend | citizen-scoring-bot/src/services/ScoringService.ts:28-50 | appending one row replays that row, clamped, on top of the earlier totals, and leaves other users alone |
| Store.LedgerTotalBelowExperience | citizen-scoring-bot/src/services/ScoringService.ts:28-29 | replayed points never exceed replayed experience, since clamping only raises a negative total and every gain counts in both |
| Store.RecordUpdateKeepsValid | citizen-scoring-bot/src/services/ScoringService.ts:88-93 | a counter or profile update of a stored user keeps the store invariant |
| Store.Database.UpdateRecord | citizen-scoring-bot/src/services/ScoringService.ts:143-148 | a counter update writes that user's record and nothing else, and keeps the invariant |
| Store.Database.CreateUserBadge | citizen-scoring-bot/src/services/BadgeService.ts:172-177 | the create succeeds iff the user and badge are stored and the pair is new; then exactly that row is added, otherwise nothing changes |
| Text.TrimStart | citizen-scoring-bot/src/services/ScoringService.ts:183 | a suffix of the input; everything dropped is whitespace and the result starts with a kept character |
| Text.TrimEnd | citizen-scoring-bot/src/services/ScoringService.ts:183 | a prefix of the input; everything dropped is whitespace and the result ends with a kept character |
| Text.Trim | citizen-scoring-bot/src/services/ScoringService.ts:183 | the result sits inside the input with only whitespace around it, and neither starts nor ends with whitespace |
| Text.TrimUntrimmed | citizen-scoring-bot/src/services/ScoringService.ts:183 | a string with no whitespace at either end trims to itself |
| Text.TrimIdempotent | citizen-scoring-bot/src/services/ScoringService.ts:183 | trimming twice is trimming once |
| Text.TrimIgnoresPadding | citizen-scoring-bot/src/services/ScoringService.ts:183 | whitespace added around a string does not change its trim |
| Text.Utf16Length | citizen-scoring-bot/src/services/ScoringService.ts:186 | the code-unit length is between the character count and twice it, and equals it inside the Basic Multilingual Plane |
| Text.Contains | citizen-scoring-bot/src/services/ScoringService.ts:189 | true iff the pattern occurs at some offset |
| Text.Split | citizen-scoring-bot/src/services/ScoringService.ts:190 | one piece more than separators, no piece holds the separator, and joining the pieces gives the input back |
| Text.SplitWithoutSeparator | citizen-scoring-bot/src/services/ScoringService.ts:190 | a string without the separator splits into itself alone |
| Text.NatToString | citizen-scoring-bot/src/services/ScoringService.ts:112 | the decimal rendering of a count: digits only, whose decimal value is n, with no leading zero |
| Text.IntToString | citizen-scoring-bot/src/services/ScoringService.ts:139 | the template rendering of the minutes: '-' exactly for a negative number, then digits whose decimal value is \|n\| |
| Users.DiscriminatorOrDefault | citizen-scoring-bot/src/services/UserService.ts:13 | `discriminator \|\| '0'`: a given non-empty discriminator is kept, a missing or empty one becomes "0" |
| Users.Refreshed | citizen-scoring-bot/src/services/UserService.ts:11-16 | only username, discriminator, displayName and lastActive change; a field the caller leaves out keeps its value |
| Users.NewUser | citizen-scoring-bot/src/services/UserService.ts:17-22 | a new user has zero points, experience and counters, level 1, and joined and was active at `now` |
| Users.EnsureUser | citizen-scoring-bot/src/services/UserService.ts:7-28 | the write fails only for a new user without a username; a stored user keeps points and counters; a new user is appended; nothing else changes |
| Users.EnsureUserKeepsValid | citizen-scoring-bot/src/services/UserService.ts:7-28 | the upsert keeps the store invariant |
| Users.EnsureUserExists | citizen-scoring-bot/src/services/UserService.ts:7-28 | performs the upsert, reports failure, and writes nothing when it fails |
| Users.StatsAgreeWithLedger | citizen-scoring-bot/src/services/UserService.ts:30-52 | in a valid store the stats are the ledger's: points and experience are the replay of the user's rows, the level is the one the experience reaches, and points never exceed experience |
| Users.GetUserRank | citizen-scoring-bot/src/services/UserService.ts:69-86 | the rank is at least 1 and at most the number of users; an unknown id has rank 1 |
| Users.TopRank | citizen-scoring-bot/src/services/UserService.ts:69-86 | rank 1 iff nobody has more points |
| Users.RankOrder | citizen-scoring-bot/src/services/UserService.ts:69-86 | equal points share a rank; strictly more points give a strictly smaller rank |
| Scoring.Awarded | citizen-scoring-bot/src/services/ScoringService.ts:28-39 | points become max(0, old + delta); experience grows by the positive part only; level follows experience; lastActive is now; nothing else changes |
| Scoring.AwardPointsEffect | citizen-scoring-bot/src/services/ScoringService.ts:16-58 | fails with nothing written iff the user is unknown; otherwise the record update and exactly one ledger row with the same signed points, reason, category and admin |
| Scoring.AwardPointsKeepsValid | citizen-scoring-bot/src/services/ScoringService.ts:24-51 | an award keeps the totals equal to the ledger replay |
| Scoring.AwardNeverLowersLevel | citizen-scoring-bot/src/services/ScoringService.ts:29-30 | an award, even a negative one, never lowers the level |
| Scoring.AwardThenRevoke | citizen-scoring-bot/src/services/ScoringService.ts:28-29 | +P then -P restores the points but keeps the experience of the +P |
| Scoring.RevokeThenAwardFromZero | citizen-scoring-bot/src/services/ScoringService.ts:28 | from 0 points, -P then +P ends at P: clamping makes the order matter |
| Scoring.NextWindow | citizen-scoring-bot/src/services/ScoringService.ts:165-180 | lastMessage becomes now; the count rises by one within 1000 ms of the last message and restarts at 1 otherwise or for a new user |
| Scoring.CountGrowsByAtMostOne | citizen-scoring-bot/src/services/ScoringService.ts:170-174 | each message adds at most one to the burst count |
| Scoring.BurstCountBound | citizen-scoring-bot/src/services/ScoringService.ts:165-180 | the k-th message of a burst has count at most k, so the first three of any burst are never spam |
| Scoring.RapidBurstCount | citizen-scoring-bot/src/services/ScoringService.ts:170-171 | messages less than 1000 ms apart raise the count by exactly one each |
| Scoring.FourthRapidMessageIsSpam | citizen-scoring-bot/src/services/ScoringService.ts:165-180 | of four messages less than a second apart after a pause, the first three are not spam and the fourth is |
| Scoring.IsQualityMessage | citizen-scoring-bot/src/services/ScoringService.ts:182-192 | quality iff the trimmed content is over 100 UTF-16 code units, there is an attachment or an embed, "http" occurs in the trimmed content, or it holds at least 20 spaces |
| Scoring.WordRuleCountsSpaces | citizen-scoring-bot/src/services/ScoringService.ts:190 | more than 20 parts iff at least 20 spaces in the trimmed content |
| Scoring.QualityIgnoresPadding | citizen-scoring-bot/src/services/ScoringService.ts:182-191 | whitespace around the content never changes the classification |
| Scoring.LongMessageIsQuality | citizen-scoring-bot/src/services/ScoringService.ts:183-186 | 101 non-blank-ended characters of the Basic Multilingual Plane make a quality message |
| Scoring.MessageEffect | citizen-scoring-bot/src/services/ScoringService.ts:60-97 | a bot message changes nothing; the handler never touches badges or user–badge rows, and only appends to the ledger, at most one row |
| Scoring.ScoreMessageOutcome | citizen-scoring-bot/src/services/ScoringService.ts:66-93 | only the author's spam window changes in the tracker; exactly one ledger row, the author's, is appended, and the author's points and experience move as an award of its points; spam gets the penalty with messagesCount unchanged, otherwise the quality or regular points and messagesCount + 1; every other user's record is unchanged |
| Scoring.MessageOutcome | citizen-scoring-bot/src/services/ScoringService.ts:60-97 | for every non-bot author the upsert accepts, new authors included, the handler scores the message on the upserted store; the upsert keeps a stored author's points, experience and messagesCount and starts a new author's at 0 |
| Scoring.MessageKeepsValid | citizen-scoring-bot/src/services/ScoringService.ts:60-97 | the message handler keeps the store invariant |
| Scoring.ReactionEffect | citizen-scoring-bot/src/services/ScoringService.ts:99-129 | the handler never touches badges or user–badge rows, and only appends to the ledger, at most one row |
| Scoring.SelfReactionIsIgnored | citizen-scoring-bot/src/services/ScoringService.ts:100 | a self-reaction changes nothing |
| Scoring.ReactionOutcome | citizen-scoring-bot/src/services/ScoringService.ts:99-129 | the reactor's reactionsGiven and the author's reactionsReceived rise by one; the author's bonus row of 2 points is appended iff the author's count before this reaction reaches the threshold, and then the author's points and experience move as that award, otherwise they stay; every other user's record is unchanged |
| Scoring.ReactionKeepsValid | citizen-scoring-bot/src/services/ScoringService.ts:99-129 | the reaction handler keeps the store invariant |
| Scoring.VoicePoints | citizen-scoring-bot/src/services/ScoringService.ts:133 | exactly floor(minutes * 1/2) |
| Scoring.VoiceActivityEffect | citizen-scoring-bot/src/services/ScoringService.ts:131-153 | the handler never touches badges, user–badge rows or the users' storage order, and only appends to the ledger, at most one row |
| Scoring.VoiceActivityOutcome | citizen-scoring-bot/src/services/ScoringService.ts:131-153 | with positive points and a stored user, one row of those points owned by that user, voiceMinutes + minutes, and every other user's record unchanged; otherwise nothing changes at all |
| Scoring.VoiceActivityKeepsValid | citizen-scoring-bot/src/services/ScoringService.ts:131-153 | the voice handler keeps the store invariant |
| Scoring.Abs | citizen-scoring-bot/src/services/ScoringService.ts:162 | the absolute value |
| Scoring.PenaltyEffect | citizen-scoring-bot/src/services/ScoringService.ts:155-163 | fails exactly for an unknown user; otherwise one row of points <= 0 is appended, the points do not rise and the experience is unchanged |
| Scoring.PenaltyNeverRaises | citizen-scoring-bot/src/services/ScoringService.ts:155-163 | the row is -\|penalty\| <= 0 whatever its sign; points never rise; experience and level are unchanged |
| Scoring.ScoringService.constructor | citizen-scoring-bot/src/services/ScoringService.ts:10-14 | the spam tracker starts empty |
| Scoring.ScoringService.AwardPoints | citizen-scoring-bot/src/services/ScoringService.ts:16-58 | succeeds iff the user is stored; reaches AwardPointsEffect's state then, and otherwise writes nothing |
| Scoring.ScoringService.IsSpam | citizen-scoring-bot/src/services/ScoringService.ts:165-180 | stores the author's next window, leaves the other entries alone, and answers count > 3 |
| Scoring.ScoringService.ProcessMessage | citizen-scoring-bot/src/services/ScoringService.ts:60-97 | reaches MessageEffect's store and tracker and keeps the invariant |
| Scoring.ScoringService.ProcessReaction | citizen-scoring-bot/src/services/ScoringService.ts:99-129 | reaches ReactionEffect's store and keeps the invariant |
| Scoring.ScoringService.ProcessVoiceActivity | citizen-scoring-bot/src/services/ScoringService.ts:131-153 | reaches VoiceActivityEffect's store and keeps the invariant |
| Scoring.ScoringService.PenalizeUser | citizen-scoring-bot/src/services/ScoringService.ts:155-163 | an award of -\|penalty\|; the unknown-user failure goes to the caller with nothing written |
| Badges.DefaultBadges | citizen-scoring-bot/src/services/BadgeService.ts:8-65 | eight badges, all active |
| Badges.DefaultNamesDistinct | citizen-scoring-bot/src/services/BadgeService.ts:8-65 | the default names are distinct |
| Badges.FindBadge | citizen-scoring-bot/src/services/BadgeService.ts:81-90 | none iff no badge has the name, else the first badge with that name |
| Badges.UpsertByName | citizen-scoring-bot/src/services/BadgeService.ts:69-73 | a taken name leaves the catalog as it is; a new one is appended |
| Badges.UpsertAllKeepsCatalog | citizen-scoring-bot/src/services/BadgeService.ts:68-74 | the bootstrap only appends: existing badges stay in place and unmodified |
| Badges.UpsertAllSize | citizen-scoring-bot/src/services/BadgeService.ts:68-74 | the bootstrap adds at most one badge per default badge and removes none |
| Badges.UpsertAllHasAll | citizen-scoring-bot/src/services/BadgeService.ts:68-74 | after the bootstrap every upserted name is in the catalog |
| Badges.UpsertAllPresent | citizen-scoring-bot/src/services/BadgeService.ts:68-74 | upserting names that are all taken changes nothing |
| Badges.UpsertAllIdempotent | citizen-scoring-bot/src/services/BadgeService.ts:7-79 | bootstrapping twice leaves the catalog as after once |
| Badges.UpsertAllKeepsNamesDistinct | citizen-scoring-bot/src/services/BadgeService.ts:68-74 | the bootstrap keeps names unique |
| Badges.UpsertAllFresh | citizen-scoring-bot/src/services/BadgeService.ts:68-74 | distinct untaken names are all appended, in order |
| Badges.BootstrapOfEmptyCatalog | citizen-scoring-bot/src/services/BadgeService.ts:7-79 | on an empty catalog the bootstrap writes exactly the default badges |
| Badges.CheckRequirement | citizen-scoring-bot/src/services/BadgeService.ts:185-215 | a points, messages, voice, reactions or level rule with threshold t holds iff totalPoints, messagesCount, voiceMinutes, reactionsReceived or level is >= t, and always without a threshold; a custom rule holds iff its condition is "veteran" and the user joined strictly before the cutoff; an unknown type never holds |
| Badges.DefaultRequirements | citizen-scoring-bot/src/services/BadgeService.ts:7-60 | what each default badge asks: 1 message, 100 messages, 60 voice minutes, 1000 points, 50 reactions received, level 10, never (the monthly badge), joining before the six-months cutoff |
| Badges.NeverMetRequirements | citizen-scoring-bot/src/services/BadgeService.ts:197-215 | "monthly_top" and unknown types never hold, so the loop never awards Citizen of the Month |
| Badges.RequirementMonotone | citizen-scoring-bot/src/services/BadgeService.ts:185-215 | a user ahead on every counter, who joined no later, meets every requirement the other meets |
| Badges.Eligible | citizen-scoring-bot/src/services/BadgeService.ts:107-122 | the loop awards at most one badge per catalog entry |
| Badges.EligibleFacts | citizen-scoring-bot/src/services/BadgeService.ts:107-122 | the listed badges are exactly the qualifying ones, each once, in catalog order |
| Badges.BadgeNamesFacts | citizen-scoring-bot/src/services/BadgeService.ts:120 | one name per awarded badge, in order |
| Badges.GrantFacts | citizen-scoring-bot/src/services/BadgeService.ts:114-119 | a row earned at now for each badge, and every other row kept |
| Badges.CheckAndAwardEffect | citizen-scoring-bot/src/services/BadgeService.ts:92-132 | an unknown user gets [] and nothing is written; only user–badge rows change; at most one name per catalog badge |
| Badges.AwardedBadges | citizen-scoring-bot/src/services/BadgeService.ts:92-132 | exactly the active, not held, met badges get a new row at now; earlier rows are untouched; no other row appears |
| Badges.AwardedNames | citizen-scoring-bot/src/services/BadgeService.ts:103-122 | the names returned are those of the awarded badges, in catalog order, each once |
| Badges.CheckAndAwardKeepsValid | citizen-scoring-bot/src/services/BadgeService.ts:92-132 | the award loop keeps the store invariant |
| Badges.CheckTwiceAwardsNothing | citizen-scoring-bot/src/services/BadgeService.ts:107-109 | a second check right after the first awards nothing |
| Badges.GrantKeepsValid | citizen-scoring-bot/src/services/BadgeService.ts:114-119 | granting catalog badges to a stored user keeps the invariant |
| Badges.AwardStep | citizen-scoring-bot/src/services/BadgeService.ts:107-122 | one loop turn awards badge k iff it qualifies, and its row is new |
| Badges.CheckAndAwardBadges | citizen-scoring-bot/src/services/BadgeService.ts:92-132 | reaches CheckAndAwardEffect's store and names, and keeps the invariant |
| Badges.AwardEligibleBadges | citizen-scoring-bot/src/services/BadgeService.ts:107-122 | the loop, with its stop on a failed create, reaches CheckAndAwardEffect's state |
| Badges.AwardBadgeToUser | citizen-scoring-bot/src/services/BadgeService.ts:170-183 | succeeds iff the user and badge exist and the pair is new; then adds that row, otherwise writes nothing |
| Badges.InitializeDefaultBadges | citizen-scoring-bot/src/services/BadgeService.ts:7-79 | the catalog becomes the upsert of the defaults, and nothing else changes |
| Ranking.SortDesc | citizen-scoring-bot/src/services/RankingService.ts:9 | same length, ordered by points, largest first |
| Ranking.SortPermutes | citizen-scoring-bot/src/services/RankingService.ts:9 | the sort is a permutation |
| Ranking.Page | citizen-scoring-bot/src/services/RankingService.ts:10-11 | skip `offset`, take at most `limit`: the length, and each element taken from its place |
| Ranking.SortedByTotal | citizen-scoring-bot/src/services/RankingService.ts:8-19 | the standings name every row once, each with its own points |
| Ranking.Lines | citizen-scoring-bot/src/services/RankingService.ts:21-28 | one line per standing, ranked consecutively |
| Ranking.GetLeaderboard | citizen-scoring-bot/src/services/RankingService.ts:6-33 | min(limit, rows - offset) lines, ranked offset + index + 1 |
| Ranking.LeaderboardLine | citizen-scoring-bot/src/services/RankingService.ts:21-28 | line k is the row at standing offset + k, with its own points |
| Ranking.LeaderboardLines | citizen-scoring-bot/src/services/RankingService.ts:6-33 | every line is a stored row with its own points; points do not increase down the board |
| Ranking.LeaderboardCovers | citizen-scoring-bot/src/services/RankingService.ts:8-11 | from the top nobody is passed over: a row is listed or has at most the last line's points |
| Ranking.AboveFitsBefore | citizen-scoring-bot/src/services/RankingService.ts:156-168 | at most j users outscore the user at standing j |
| Ranking.LeaderboardRankBound | citizen-scoring-bot/src/services/RankingService.ts:6-33 | a line's position is never better than that user's all-time rank |
| Ranking.WindowUsers | citizen-scoring-bot/src/services/RankingService.ts:40-44 | the groups: each user with a row in the window, once |
| Ranking.WindowSumOutside | citizen-scoring-bot/src/services/RankingService.ts:183-185 | a user without rows in the window sums to 0 there |
| Ranking.WindowSumWithinTotal | citizen-scoring-bot/src/services/RankingService.ts:40-54 | for a user with only gains, the window's SUM is at most the all-time total, and equals it when all the user's rows are in the window |
| Ranking.WindowScores | citizen-scoring-bot/src/services/RankingService.ts:40-47 | each group with its window sum |
| Ranking.SortedWindow | citizen-scoring-bot/src/services/RankingService.ts:40-54 | the window standings hold each window user once, with its own sum |
| Ranking.WindowEntries | citizen-scoring-bot/src/services/RankingService.ts:56-83 | every id stored: one line per group, ranked by position; a missing user: the error value [] |
| Ranking.GetWindowLeaderboard | citizen-scoring-bot/src/services/RankingService.ts:35-84 | at most `limit` lines, ranked index + 1 |
| Ranking.WindowLeaderboardLine | citizen-scoring-bot/src/services/RankingService.ts:69-78 | line k is standing k, with its sum |
| Ranking.WindowLeaderboardLines | citizen-scoring-bot/src/services/RankingService.ts:35-84 | lines are stored users with rows in the window, carrying their window sums, non-increasing, no user twice |
| Ranking.WindowLeaderboardSize | citizen-scoring-bot/src/services/RankingService.ts:40-54 | when every row's user is stored, min(limit, number of window users) lines |
| Ranking.WindowLeaderboardCovers | citizen-scoring-bot/src/services/RankingService.ts:48-53 | nobody is passed over: a window user is listed or sums to at most the last line |
| Ranking.WindowRank | citizen-scoring-bot/src/services/RankingService.ts:170-190 | at least 1 and at most one more than the window users; at most their number for a window user |
| Ranking.WindowAbove | citizen-scoring-bot/src/services/RankingService.ts:170-190 | the users the rank query counts have rows in the window, and never include the user asked about |
| Ranking.WindowAboveSize | citizen-scoring-bot/src/services/RankingService.ts:170-190 | the users outscoring someone are fewer than the window users when that someone is one of them |
| Ranking.WindowTopRank | citizen-scoring-bot/src/services/RankingService.ts:170-190 | window rank 1 iff nobody outscores the user in the window |
| Ranking.WindowRankOrder | citizen-scoring-bot/src/services/RankingService.ts:192-212 | equal window sums share a rank; a larger sum gets a strictly smaller rank |
| Ranking.WindowLeaderboardRankBound | citizen-scoring-bot/src/services/RankingService.ts:35-84 | a window line's position is never better than that user's window rank |
| Ranking.LeadersRankFirst | citizen-scoring-bot/src/services/RankingService.ts:137-212 | the user heading the all-time, weekly or monthly leaderboard has rank 1 there; a stored user's all-time rank is 1 iff nobody has more points |
| Ranking.MonthlyTopEffect | citizen-scoring-bot/src/services/RankingService.ts:214-248 | an empty monthly board gives null and no change; otherwise the top user; with the badge present, its row is set to now; without it, nothing is written; only user–badge rows change |
| Ranking.MonthlyTopIsTop | citizen-scoring-bot/src/services/RankingService.ts:216-220 | the answered user outscores or ties everyone in the month, and has monthly rank 1 |
| Ranking.MonthlyTopKeepsValid | citizen-scoring-bot/src/services/RankingService.ts:214-248 | the monthly job keeps the store invariant |
| Ranking.UpdateMonthlyTopContributor | citizen-scoring-bot/src/services/RankingService.ts:214-248 | reaches MonthlyTopEffect's store and answer, and keeps the invariant |
| Voice.SessionMinutes | citizen-scoring-bot/src/events/voiceStateUpdate.ts:27 | floor of the elapsed milliseconds over 60000; positive iff at least a minute elapsed |
| Voice.CreditFor | citizen-scoring-bot/src/events/voiceStateUpdate.ts:27-31 | a credit iff at least a minute elapsed, for exactly SessionMinutes of the session, which fit in it |
| Voice.Transition | citizen-scoring-bot/src/events/voiceStateUpdate.ts:11-51 | bots and unresolved members change nothing; no other user's session changes; a credit is the member's positive minutes, from an existing session |
| Voice.TransitionCases | citizen-scoring-bot/src/events/voiceStateUpdate.ts:17-51 | join overwrites; leave removes and credits; a move restarts and credits; without a session, a leave or move does nothing; staying changes nothing |
| Voice.StoreAfter | citizen-scoring-bot/src/events/voiceStateUpdate.ts:29-31 | no credit, no change to the store; a credit comes from a leave or move of a user with a session, and runs the voice-activity effect for that user and the session's whole minutes |
| Voice.StoreAfterKeepsValid | citizen-scoring-bot/src/events/voiceStateUpdate.ts:11-55 | the handler keeps the store invariant |
| Voice.JoinThenLeave | citizen-scoring-bot/src/events/voiceStateUpdate.ts:17-35 | join then leave credits exactly the whole minutes between and leaves no session |
| Voice.MoveNeverGains | citizen-scoring-bot/src/events/voiceStateUpdate.ts:37-51 | credits of a session split by a move add up to at most the unsplit session's minutes |
| Voice.FloorSplit | citizen-scoring-bot/src/events/voiceStateUpdate.ts:40 | floor(x/60000) + floor(y/60000) <= floor((x+y)/60000) for x, y >= 0 |
| Voice.ShortSessionEarnsNothing | citizen-scoring-bot/src/events/voiceStateUpdate.ts:27-31 | a session shorter than two minutes leaves the store unchanged |
| Voice.SessionFollowsChannel | citizen-scoring-bot/src/events/voiceStateUpdate.ts:17-51 | a session in the event's starting channel becomes one in its ending channel; no channel means no session |
| Voice.SessionsStartInPast | citizen-scoring-bot/src/events/voiceStateUpdate.ts:17-22 | if every session started by now, they all still do after an event at now |
| Voice.VoiceHandler.constructor | citizen-scoring-bot/src/events/voiceStateUpdate.ts:5-6 | the handler starts with no sessions and its own scorer |
| Voice.VoiceHandler.Execute | citizen-scoring-bot/src/events/voiceStateUpdate.ts:11-55 | the sessions become Transition's, the store becomes StoreAfter's, and the invariant is kept |

## Left out

- Floating point.
  - `Math.sqrt` is replaced by the integer square root of experience div 100. This is exact for integer experience.
  - The voice rate 0.5 is the fraction 1/2.
  - Configured rates other than the defaults, and any IEEE rounding, are not modelled.
- Environment loading of the scoring configuration. The defaults are constants, and `ghostVoicePenalty`, `reportPenalty` and `leakPenalty` are not used by the core.
- The store's failures (connection errors, a failed transaction) are not modelled, and neither is the try/catch logging around them. Only these failures are modelled: "User not found", the username-less create, the duplicate or dangling user–badge create, and the missing-user lookup in the window leaderboards. Because of this:
  - `getUserRankings`' `{total: 0, weekly: 0, monthly: 0}` answer, which only a store error produces, is not modelled;
  - `getBadgeByName`'s `null` on error is not modelled;
  - a create that fails in the middle of the badge loop ends the loop. That happens only if the row was written concurrently, because the loop skips badges the user already holds.
- The database schema is not part of this model. Three of its properties are assumed rather than derived: `username` is a required column without a default, so creating a user without one fails (Users.EnsureUser); a new user's `level` defaults to 1, its counters to 0, and its `joinedAt` and `lastActive` to the time of the create, modelled as `now` (Users.NewUser); a new badge's `isActive` defaults to true (Badges.DefaultBadges). The unique keys on badge names and on (user, badge) pairs are assumed the same way.
- Concurrency: events handled in parallel, atomic `increment`s racing with one another, and races on the spam map and the voice map. Every handler runs to completion before the next.
- `updateUserStats`, `getTopUsers`, `getUserBadges` and `createCustomBadge`. They are plain store reads and writes outside the scoring core.
- The command, gateway, cron and adapter layers: slash commands, the health server, and the scheduling of `updateMonthlyTopContributor`. The monthly job is called directly with the cutoff as a parameter.
- Calendar arithmetic (`setDate`, `setMonth`). Cutoffs are parameters.
- JSON encoding of badge requirements. A requirement is stored as a parsed datatype. A requirement that fails to parse is not modelled.
- Badge ids are catalog positions, not generated strings. Catalog rows are never deleted.
- The order of tied scores on a leaderboard is storage order, which the store does not specify. The all-time and window sorts put earlier storage rows first among ties, and no stated property depends on that order.
- `limit` and `offset` are natural numbers. Negative `take`/`skip` is not modelled.
- Scoring.MessageEffect, Scoring.ReactionEffect and Scoring.VoiceActivityEffect take one `now` per event. The source reads the clock separately in the upsert, the spam check and each award, milliseconds apart, so `lastActive`, `joinedAt`, the spam window and the ledger row's time can differ slightly there.
- Badges.AwardedNames: the award loop visits the active badges in catalog order, and the returned names follow that order. The source's `findMany` has no `orderBy`, so the store chooses the order of the loop and of the names; only the set of awarded badges is fixed by the source.
- Voice.VoiceHandler.Execute reads the clock once per event. The source reads it again when it restarts a session after crediting, milliseconds later.
- Strings are sequences of code points. Lone UTF-16 surrogates cannot occur, and `String.prototype.length` counts two units for a character above U+FFFF.
- Logging.
