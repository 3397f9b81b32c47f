# Habit and friendship core of the login server

This project is a Dafny model of the rule-carrying parts of the Express/SQLite login server in
`my_app/login-server`. Each database table becomes an in-memory map or sequence, and each
handler becomes one atomic step over it. The model covers:

- **Friendships.** A friendship is one row per canonical pair `(user_low, user_high)`. The row
  holds the requester and a status: pending, accepted or declined. The request, accept and
  decline handlers are guarded inserts and updates. `GET /friends` and `GET /friends/requests`
  are queries over the table. Both select `users.friend_code`, so they answer "DB error" on a
  `users` table without that column, which as written is every database this module creates (see "Findings"). The module proves the row invariants (the key is canonical, the
  requester is one of the two members, accepted is terminal) for every sequence of operations.
  It also proves what each handler does in each case.
- **Habit event log and analytics.** `/habit/complete` is an insert-or-ignore into a log that
  holds each completion once. `/predict_from_history` counts completions in the last 7 and 30
  days and walks back from today while days are logged. `GET /streaks` does the same walk over
  mood dates. Days are day numbers, and `today` is a parameter.
- **ISO calendar dates.** The server formats and compares dates as `YYYY-MM-DD`. The model
  proves that this format is injective and that string order equals calendar order. That is
  why day numbers stand in for the stored strings.
- **Habits and pillars.** The completion toggle with its streak counter, pillar and habit
  creation with their defaults, grouping habits under pillars for `GET /pillars`, and the titles
  two users share.
- **Schema migration.** `ensureColumn` adds a column only if its name (the first token of the
  definition) is not there yet. The friend-code migration is meant to add `users.friend_code`
  and backfill codes. As written, SQLite refuses that column (see "Findings"), so the model
  also gives a corrected migration that does add it.

Modules: `Wrappers` (result types and the handlers' errors), `PairIdentity`, `Friendships`,
`Sequences`, `HabitEvents`, `Analytics`, `IsoDates`, `Habits`, `Schema`.

Where the code and its description disagree, the model follows the code:

- `/friends/request` accepts a request from a user to themself. Only `/friends/search` refuses
  that. The model allows such a self-row and proves that it can never become accepted.
- `/friends/request` always answers `pending`, even when the row is already accepted.
- Foreign keys are enforced (`PRAGMA foreign_keys = ON`). A friend request that would insert a
  row naming a non-user fails with "DB error" and writes nothing.
- SQLite compares column names ignoring ASCII case, while `ensureColumn` looks for the name
  with `===`. Asking for a column that differs from an existing one only in case makes the
  ALTER fail with "duplicate column name", and the catalog stays as it was.

## Model

| member | source | states |
|---|---|---|
| PairIdentity.Pair | my_app/login-server/server.js:668-670 | the key is ordered and holds exactly the two ids |
| PairIdentity.PairCommutes | my_app/login-server/server.js:668-670 | both parties name the same row |
| PairIdentity.PairOfCanonicalKey | my_app/login-server/db.js:105-110 | a canonical key is its own pair, in either order |
| PairIdentity.MinMaxPair | my_app/login-server/db.js:117-121 | the min/max helper gives the same key as the server's helper |
| Friendships.FriendshipStore.Request | my_app/login-server/server.js:537-564 | a falsy `friendId` is refused with no change; a new row naming a non-user is refused with "DB error" and no change; otherwise it inserts a pending row, or resets a declined one, with `self` as requester; a pending or accepted row is untouched; every success answers pending |
| Friendships.FriendshipStore.Accept | my_app/login-server/server.js:566-584 | succeeds exactly when the row is pending and `self` is not the requester; otherwise "no pending request" and no change |
| Friendships.FriendshipStore.Decline | my_app/login-server/server.js:586-600 | pending becomes declined for either party, with the requester kept; any other state is untouched and the answer is still ok |
| Friendships.FriendshipStore.ListAccepted | my_app/login-server/server.js:603-619 | "DB error" exactly when `users` lacks the selected `friend_code` column; otherwise `u` is listed iff the pair's row is accepted, and each friend is listed once |
| Friendships.FriendshipStore.ListIncoming | my_app/login-server/server.js:622-639 | "DB error" exactly when `users` lacks the selected `friend_code` column; otherwise `u` is listed iff `self` can accept `u`'s request |
| Friendships.AcceptedFriends | my_app/login-server/server.js:604-613 | the JOIN yields exactly the users whose row with `self` is accepted |
| Friendships.IncomingRequests | my_app/login-server/server.js:623-633 | the JOIN yields exactly the other members who requested a pending row with `self` |
| Friendships.RequestCases | my_app/login-server/server.js:542-563 | the cases of a request (insert refused by a foreign key, absent, declined, other), with every other row kept |
| Friendships.RequestIdempotent | my_app/login-server/server.js:542-563 | a second request, by either party, changes nothing |
| Friendships.AcceptOnlyByInvitee | my_app/login-server/server.js:572-577 | an accept succeeds only for the member who did not request |
| Friendships.RequesterCannotAcceptOwnRequest | my_app/login-server/server.js:542-577 | right after a request, the requester cannot accept it, and the other party can when both are users |
| Friendships.AcceptCases | my_app/login-server/server.js:572-583 | a failed accept changes nothing; a successful one changes only the status |
| Friendships.DeclineCases | my_app/login-server/server.js:590-599 | decline touches only a pending row and keeps its requester |
| Friendships.ApplyStep | my_app/login-server/db.js:103-115 | one operation keeps the row invariants and the foreign keys, deletes no row and keeps accepted rows |
| Friendships.RunPreservesWellFormed | my_app/login-server/server.js:543-599 | every reachable table has canonical keys, requesters that are members, no accepted self-row, and only users as members |
| Friendships.RunKeepsAccepted | my_app/login-server/server.js:543-599 | accepted is terminal over any sequence of operations |
| Friendships.DeclineThenRerequestCycle | my_app/login-server/server.js:543-583 | request, decline, request back, accept ends accepted, with the last asker as requester |
| Friendships.OtherMembersDistinct | my_app/login-server/server.js:609-610 | distinct rows of `self` have distinct other members |
| Friendships.AcceptedFriendsAreDistinct | my_app/login-server/server.js:604-613 | the friend list has one entry per accepted row |
| Friendships.IncomingAreAcceptable | my_app/login-server/server.js:622-639 | the incoming list is exactly the requests `self` can accept |
| Friendships.AcceptedFriendsSymmetric | my_app/login-server/server.js:603-619 | `y` is `x`'s friend iff `x` is `y`'s friend |
| HabitEvents.EventLog.RecordCompletion | my_app/login-server/server.js:393-405 | a missing habit name or date is refused with no change; otherwise insert-or-ignore, answering ok also for a repeat |
| HabitEvents.RecordedKeepsUnique | my_app/login-server/db.js:150 | logging keeps the log free of duplicates, leaves exactly one copy of the event and changes no other count |
| HabitEvents.RecordIdempotent | my_app/login-server/server.js:396-401 | logging a completion twice is logging it once |
| HabitEvents.FetchDates | my_app/login-server/server.js:416-424 | a day is fetched iff it is on or after the bound and this user logged this habit that day |
| Analytics.WindowCount | my_app/login-server/server.js:427-433 | a window's count is at most its number of days |
| Analytics.WindowCountStep | my_app/login-server/server.js:427-433 | extending the window by a day adds one exactly when that day is logged |
| Analytics.WindowCountIsCardinality | my_app/login-server/server.js:427-433 | the count equals the number of logged dates inside the window |
| Analytics.WindowSplit | my_app/login-server/server.js:427-433 | a window's count is the sum of two adjacent windows' counts |
| Analytics.WindowAllPresent | my_app/login-server/server.js:427-433 | a fully logged window counts all its days |
| Analytics.WindowCongruent | my_app/login-server/server.js:427-433 | only the days inside the window matter |
| Analytics.Streak | my_app/login-server/server.js:436-441 | the `n` days up to `day` are logged and the day before them is not |
| Analytics.StreakUnique | my_app/login-server/server.js:436-441 | those two facts determine the streak |
| Analytics.StreakCongruent | my_app/login-server/server.js:436-441 | days after `day` never change the streak |
| Analytics.CurrentStreak | my_app/login-server/server.js:436-441 | the loop returns the streak ending at today, 0 when today is not logged |
| Analytics.MoodStreak | my_app/login-server/server.js:374-387 | the loop over mood days returns the streak of the set of those days |
| Analytics.WindowBounds | my_app/login-server/server.js:427-433 | last7Count <= 7 and last7Count <= last30Count <= 30 |
| Analytics.StreakWithinLast30 | my_app/login-server/server.js:416-441 | with only dates from today-29 on fetched, streak <= last30Count <= 30 |
| Analytics.EmptyLogSignals | my_app/login-server/server.js:427-441 | an empty log gives zero counts and a zero streak |
| Analytics.FutureEventsIgnored | my_app/login-server/server.js:407-441 | events after today never change any signal |
| Analytics.PredictFromHistory | my_app/login-server/server.js:407-441 | a missing habit name is refused; otherwise the three signals are computed from one fetch, with the target defaulting to 5, and they obey the bounds above |
| IsoDates.DaysInMonth | my_app/login-server/server.js:420 | month lengths of the Gregorian calendar, 29 exactly for February of a leap year |
| IsoDates.Digits | my_app/login-server/server.js:420 | a zero-padded number has the given width and only digits |
| IsoDates.ValueOfDigits | my_app/login-server/server.js:420 | reading padded digits back gives the number |
| IsoDates.DigitsOfValue | my_app/login-server/server.js:420 | a digit string is the padding of its value |
| IsoDates.StrLessConcat | my_app/login-server/server.js:417-420 | behind prefixes of equal length, string order is decided by the prefixes unless they are equal |
| IsoDates.DigitsOrder | my_app/login-server/server.js:417-420 | padded numbers of one width compare as the numbers do |
| IsoDates.Format | my_app/login-server/server.js:420 | `YYYY-MM-DD` has ten characters with dashes at positions 4 and 7 |
| IsoDates.Parse | my_app/login-server/server.js:420 | reading back the full-date form the server writes: whatever parses is a valid calendar date |
| IsoDates.ParseFormat | my_app/login-server/server.js:420 | parsing a formatted date gives it back |
| IsoDates.FormatParse | my_app/login-server/server.js:420 | every string that parses is the format of its date |
| IsoDates.FormatInjective | my_app/login-server/server.js:424 | distinct dates have distinct strings, so set membership by string is membership by date |
| IsoDates.FormatOrder | my_app/login-server/server.js:417-420 | string order of formatted dates is calendar order, so `date >= ?` selects the later dates |
| Habits.Toggled | my_app/login-server/server.js:351-352 | flips completed; completing adds one to the streak, un-completing takes one off floored at 0; a streak >= 0 stays >= 0 |
| Habits.ToggleTwiceFromIncomplete | my_app/login-server/server.js:351-352 | from not completed, two toggles restore the habit |
| Habits.ToggleTwiceFromCompleted | my_app/login-server/server.js:351-352 | from completed, two toggles restore it unless the streak was 0, which comes back as 1 |
| Habits.HabitStore.Toggle | my_app/login-server/server.js:343-363 | a missing or foreign habit is "not found" with no change; otherwise the row is rewritten with the toggled values, which are also the answer |
| Habits.HabitStore.AddHabit | my_app/login-server/server.js:267-278 | a missing title or pillar fails with no change; otherwise a new habit with a fresh id, not completed, streak 0 |
| Habits.HabitStore.CreatePillar | my_app/login-server/server.js:330-340 | a missing title fails; otherwise a new pillar with a fresh id and the defaults "", 0xFF3B82F6 and 0 |
| Habits.HabitsOfMembers | my_app/login-server/server.js:303-312 | a view is under a pillar iff some row of that pillar shows as it |
| Habits.HabitsOfLength | my_app/login-server/server.js:303-312 | each pillar's list has one entry per row of that pillar |
| Habits.GroupByPillar | my_app/login-server/server.js:303-312 | the lookup of a pillar, with the empty list for a pillar without habits, is the in-order list of that pillar's habits, and no stored list is empty |
| Habits.ListPillars | my_app/login-server/server.js:289-321 | one answer per pillar, in order, with its fields and its habits |
| Habits.SharedTitles | my_app/login-server/server.js:641-660 | the shared titles are the intersection of the two users' title sets |
| Habits.SharedTitlesSymmetric | my_app/login-server/server.js:641-660 | the shared titles do not depend on who asks |
| Habits.HabitStore.SharedHabits | my_app/login-server/server.js:641-660 | a title is answered iff both users have a habit with it |
| Habits.PillarDefaultsMatchSchema | my_app/login-server/server.js:331 | with the corrected column default, a pillar created without description, color or progress is the same row as one filled from the column defaults |
| Habits.SchemaDefaultColorMismatch | my_app/login-server/db.js:81 | as written, a row filled from the column defaults (as the migration at db.js:168 fills old rows) has color 0xFF2196F3 and differs from the pillar the server creates |
| Schema.ColumnName | my_app/login-server/db.js:6 | the name is the longest prefix without JavaScript whitespace |
| Schema.ColumnNameOfWord | my_app/login-server/db.js:6 | a word followed by whitespace names the column by that word |
| Schema.EnsureColumnIdempotent | my_app/login-server/db.js:5-13 | running `ensureColumn` twice is running it once |
| Schema.EnsureColumnExactlyOnce | my_app/login-server/db.js:5-13 | afterwards the column is there exactly once unless it was missing and the ALTER refused it (a name clashing in case, or a refused constraint); column names stay distinct ignoring case; existing columns and other tables are kept |
| Schema.CaseVariantNotAdded | my_app/login-server/db.js:9-11 | asking for `MOOD TEXT` on a table with `mood` leaves the catalog unchanged |
| Schema.Catalog.EnsureColumn | my_app/login-server/db.js:5-13 | the callback gets no error iff the column is there afterwards; otherwise no such table, a duplicate name ignoring case, or the refused constraint |
| Schema.Users.BackfillFriendCodes | my_app/login-server/db.js:127-132 | users whose code was NULL get a drawn code; no other code changes |
| Schema.BackfillLeavesNoNull | my_app/login-server/db.js:127-132 | after the backfill no code is NULL and existing codes are kept |
| Schema.FriendCodeColumnName | my_app/login-server/db.js:124 | `friend_code TEXT UNIQUE` names the column `friend_code` |
| Schema.FriendCodeDefRefused | my_app/login-server/db.js:124 | the definition carries UNIQUE, which ADD COLUMN refuses |
| Schema.FriendCodeColumnNeverAdded | my_app/login-server/db.js:124 | on a `users` table without the column, the migration leaves the catalog unchanged |
| Schema.AddFriendCodes | my_app/login-server/db.js:124-136 | the backfill runs only if the column was already there |
| Schema.CorrectedFriendCodeColumnName | my_app/login-server/db.js:124 | `friend_code TEXT` names the column `friend_code` |
| Schema.CorrectedFriendCodeDefAccepted | my_app/login-server/db.js:124 | the definition without UNIQUE carries no refused constraint |
| Schema.CorrectedFriendCodeColumnAdded | my_app/login-server/db.js:124 | with that definition the column is there exactly once afterwards, unless a column differing only in case is in the way |
| Schema.AddFriendCodesCorrected | my_app/login-server/db.js:124-136 | with that definition, every existing `users` table without a case-variant column gets the column and every user gets a code |

## Left out

- HTTP routing, JSON bodies and status codes: handlers return `Result`/`Outcome` values whose
  errors name the client messages.
- JWT authentication, bcrypt and registration: the acting user is an `int` parameter.
- The OpenAI calls and the parsing of their answers: these are foreign network calls.
  `PredictFromHistory` stops at the feature vector it would send.
- Concurrency and the callback-style SQLite API: each handler is one atomic step. This includes
  the gap between the read and the write of the toggle.
- The generic 500 "DB error" answers for engine failures, apart from the foreign-key failure of
  a friend request and the missing `friend_code` column of the two friend lists.
- Friendships.FriendshipStore.ListAccepted: the list is modelled for a `users` table that has
  `friend_code` (`hasFriendCode`). As written, a database this module creates lacks the
  column, so `GET /friends` answers 500 every time. The selected username and code themselves
  are not modelled, only the ids.
- Friendships.FriendshipStore.ListIncoming: the same holds for `GET /friends/requests`. As
  written, a database this module creates gives 500 every time.
- Clocks and time zones: `today` and mood timestamps are day numbers. The mapping from
  `new Date()` to a calendar date, `subDays` and `isSameDay` are not modelled.
- Day numbers are not converted to `IsoDates.Date` values. `IsoDates` shows that the string
  format keeps equality and order. Strings in `habit_events.date` that are not well-formed dates
  are not modelled, because `/habit/complete` stores any string it is given.
- The unused `startStreak` value, and `reflection`, which only goes to the predictor.
- `Math.random` friend codes: the drawn codes are a parameter (`draw`), and the row ids the
  backfill SELECT returns are another (`selected`). Codes are not checked for collisions under
  the UNIQUE constraint.
- Schema.AddColumnRefused: SQLite also refuses other ADD COLUMN definitions (NOT NULL without a
  default, non-constant defaults). It matches the upper-case keywords only, as the source writes
  them.
- Schema.Catalog.EnsureColumn: SQLite's parser of the column definition is not modelled. The name
  of an added column is the JavaScript first token, so a definition starting with whitespace
  adds a column named by the empty string, where SQLite would add the name it parses. `UNIQUE`
  or `PRIMARY KEY` anywhere in the text counts as the constraint, even inside a quoted DEFAULT
  value, which SQLite would accept.
- IsoDates.Parse: it reads only the full-date form `YYYY-MM-DD` that `formatISO(...,
  { representation: 'date' })` writes. `parseISO` at server.js:374 also reads timestamps and
  other ISO 8601 forms of the mood dates; those are taken as day numbers without a model of
  the parsing.
- The journal tag and gratitude backfills and their JSON, and `/friends/search`,
  `/me/friend_code` and `/friends/encourage`, which hold no state rules.
- Sleep and mood values (REAL), and the ORDER BY clauses. The list queries are sets, except the
  habit grouping, which keeps row order.
- JavaScript `null` and non-integer values in request bodies. A missing `friendId` or `date` is
  `None`, and a missing `habitName` is the empty string, which is just as falsy. `friendId` is an
  integer. The `parseInt` of the shared-habits route is taken to yield one.
- Habits.HabitStore.AddHabit: it does not check that the user exists, and it does not model the
  foreign key on `user_id`.

## Findings

| source | as written | input that shows it | evidently intended | confidence | as-written member | corrected member |
|---|---|---|---|---|---|---|
| my_app/login-server/db.js:81 | `color INTEGER DEFAULT 4280391411`, annotated `0xFF3B82F6`; 4280391411 is 0xFF2196F3 | a pillar row that predates the `color` column: the migration at db.js:168 fills it from the default with 0xFF2196F3, while `POST /pillars` without a color stores 0xFF3B82F6 | default 4282090230 (0xFF3B82F6), the color the server uses | not executed | Habits.SchemaDefaultColorMismatch | Habits.PillarDefaultsMatchSchema |
| my_app/login-server/db.js:124 | `ensureColumn("users", "friend_code TEXT UNIQUE")`, while `users` is created without `friend_code` (db.js:21-25) | any database this module creates: SQLite refuses ADD COLUMN with a UNIQUE constraint, so the column is never added and the backfill never runs; as a consequence `GET /friends` and `GET /friends/requests` (server.js:606, 625), which select `u.friend_code`, answer 500 "DB error" every time | the column exists and every user has a code (uniqueness would come from a separate unique index) | not executed; relies on SQLite's documented ADD COLUMN restriction | Schema.FriendCodeColumnNeverAdded | Schema.AddFriendCodesCorrected |
