# nextgenscores: a verified model of the scoreboard, merge and backend routes

This project models the core logic of the nextgenscores college-football
web application in Dafny and proves properties of it. It covers six parts:

- **Scoreboard page** (`Scoreboard`). The React page loads the stored games
  and derives three things from them: the distinct weeks, a default
  ("current") week, and the games shown for the selected week and
  conference. It also sorts the shown games by their start time. The
  page's state hooks are the fields of the class `ScoreboardPage`. Its two
  change handlers re-run the filter effect.
- **Team-name normalisation and the statistics merge** (`TeamNames`,
  `TeamMerge`). The merge script normalises team names, builds one lookup
  index per statistics endpoint, writes the matched rows into every game
  of the season and counts the matches, then stores the merged games.
- **Account routes** (`Auth`). Signup, login, logout and "who am I", over a
  user collection (`UserStore`). This part includes the cookie lifetime
  derived from `JWT_EXPIRES_IN`, using a model of JavaScript's `parseInt`.
- **Newsletter subscribe route** (`Subscribe`), over the subscriber
  collection (`SubscriberList`).
- **Game store** (`GameStore`). The refill route empties the game
  collection, fetches the season from the upstream statistics service and
  inserts the rows that name both teams. It uses an unordered bulk insert
  into a collection with a unique `id` index. The listing route returns
  the games ordered by week.
- **SEC schedule mail** (`SecSchedule`). This route picks the games with an
  SEC side, orders them by week, renders them as an HTML table and mails
  it.

The remaining modules are shared:

- `Common`: optional values and JavaScript/Python truthiness.
- `Seqs`: filter, count and subsequence.
- `Sorting`: a stable sort by an integer key, standing for both
  `Array.prototype.sort` with a numeric comparator and MongoDB's
  `.sort({ field: 1 })`.
- `Decimal`: integers and their decimal text.
- `Games`: the game record.

Inputs the model receives as parameters instead of computing them:

- the stored games and the HTTP responses of the upstream service, as values;
- bcrypt's hash and compare, and JWT sign and verify, as opaque functions;
- the clock, as the whole number of days since the season start;
- date rendering, as an opaque function;
- the mailer's outcome.

## Model

| member | source | states |
|---|---|---|
| Scoreboard.UniqueWeeks | frontend/nextgenscores/src/pages/Scoreboard.jsx:32 | the week list is strictly ascending (so each week appears once) and holds exactly the weeks some game has |
| Scoreboard.CalcWeek | frontend/nextgenscores/src/pages/Scoreboard.jsx:39 | day d falls into the computed week w: 7(w-1) <= d < 7w, so days 0..6 are week 1 |
| Scoreboard.DefaultWeek | frontend/nextgenscores/src/pages/Scoreboard.jsx:40 | the computed week when the data has it; otherwise the largest week present; -Infinity when there are no weeks |
| Scoreboard.Selected | frontend/nextgenscores/src/pages/Scoreboard.jsx:55-68 | every shown game is a loaded game that meets the selection, and no more games are shown than were loaded |
| Scoreboard.WeekFromOption | frontend/nextgenscores/src/pages/Scoreboard.jsx:76 | an option selects all weeks iff it is "all" or reads as the number 0 |
| Scoreboard.SelectAllIsEverything | frontend/nextgenscores/src/pages/Scoreboard.jsx:59-66 | week 0 with conference "All" shows every game, in order |
| Scoreboard.SelectedMeetsSelection | frontend/nextgenscores/src/pages/Scoreboard.jsx:59-66 | a game is shown iff it is loaded, has the selected week (unless week 0) and has the selected conference on its home or away side (unless "All") |
| Scoreboard.SelectedIsSubsequence | frontend/nextgenscores/src/pages/Scoreboard.jsx:56-68 | filtering only drops games and never reorders them |
| Scoreboard.WeekOptionSelectsWeek | frontend/nextgenscores/src/pages/Scoreboard.jsx:75-77 | choosing "all" selects week 0; choosing the option rendered for week w selects exactly w |
| Scoreboard.ScoreboardPage.constructor | frontend/nextgenscores/src/pages/Scoreboard.jsx:7-15 | the initial state: no games or weeks, week 0 (all), current week 0, conference "SEC", no error |
| Scoreboard.ScoreboardPage.ApplyFilter | frontend/nextgenscores/src/pages/Scoreboard.jsx:55-69 | the two-stage week-then-conference filter leaves exactly the games that meet the selection |
| Scoreboard.ScoreboardPage.Load | frontend/nextgenscores/src/pages/Scoreboard.jsx:21-52 | a successful fetch stores the games, their distinct weeks and the default week as both the current and the selected week; a failed fetch only flags the error; the shown games match the selection afterwards |
| Scoreboard.ScoreboardPage.HandleWeekChange | frontend/nextgenscores/src/pages/Scoreboard.jsx:75-77 | sets just the selected week ("all" is 0, otherwise the number) and re-filters |
| Scoreboard.ScoreboardPage.HandleConferenceChange | frontend/nextgenscores/src/pages/Scoreboard.jsx:79-81 | sets just the selected conference and re-filters |
| Scoreboard.ScoreboardPage.SortedGames | frontend/nextgenscores/src/pages/Scoreboard.jsx:71-73 | a permutation of the shown games in non-decreasing start time |
| Scoreboard.SortedGamesKeepTies | frontend/nextgenscores/src/pages/Scoreboard.jsx:72 | games with equal start times keep their filtered order (the sort is stable) |
| Sorting.SortBy | frontend/nextgenscores/src/pages/Scoreboard.jsx:72 | the result is a permutation of the input, sorted by the key |
| Sorting.SortByIsStable | frontend/nextgenscores/src/pages/Scoreboard.jsx:72 | the elements sharing one key appear in the sorted result in their original order |
| Decimal.ParseIntToDecimal | frontend/nextgenscores/src/pages/Scoreboard.jsx:76 | `Number` of an integer's decimal text gives back that integer |
| TeamNames.NormalizeTeamName | xgboost/testing.py:45-47 | the key has no `&`, no `.`, no ASCII capital and no whitespace at either end; a missing or empty name gives "" |
| TeamNames.NormalizeIsIdempotent | xgboost/testing.py:45-47 | normalising a normalised key changes nothing |
| TeamNames.TexasAandM | xgboost/testing.py:47 | "Texas A&M" normalises to "texas aandm" (the ampersand is replaced after lower-casing) |
| TeamNames.LowerFacts | xgboost/testing.py:47 | lower-casing maps each character on its own, leaves no capital, and leaves capital-free text unchanged |
| TeamNames.ReplaceAmpersandRemovesAll | xgboost/testing.py:47 | no `&` is left after the replacement |
| TeamNames.DropDotsFacts | xgboost/testing.py:47 | removing dots leaves no `.`, brings in no new character and changes dot-free text in no way |
| TeamNames.StripFacts | xgboost/testing.py:47 | strip keeps one contiguous piece of the input and removes only whitespace before and after it; the piece has no whitespace at either end, and text without surrounding whitespace is unchanged |
| TeamMerge.BuildIndex | xgboost/testing.py:77-82 | an index has a key exactly when some row has that key |
| TeamMerge.LookupFindsLastRow | xgboost/testing.py:77-82 | a lookup finds nothing iff no row has the key, and otherwise finds the last row with the key (later rows overwrite earlier ones) |
| TeamMerge.MergedForKeys | xgboost/testing.py:96-131 | `fbs_only` holds iff an SP slot holds a non-empty row; each home and away slot of `ratings.sp`, `ratings.fpi`, `team_info`, `season_stats` and `records` is filled iff its index has that side's key, and then holds that index entry; the venue slot is filled iff the venue id is truthy and indexed, and then holds the venue index entry |
| TeamMerge.MergedSlotsComeFromRows | xgboost/testing.py:77-131 | all ten team slots (SP, FPI, team info, season stats and records, home and away) are the last row of their endpoint whose normalised team or school name is that side's normalised name, or None when no row has it; the venue slot is None for a falsy venue id and otherwise the last venue row with that id, if any; `fbs_only` holds iff an SP slot holds a non-empty row |
| TeamMerge.SameNamesSameRows | xgboost/testing.py:93-94 | games whose team names normalise alike receive the same rating, team, stats and record rows |
| TeamMerge.MergeGame | xgboost/testing.py:96-131 | the loop body writes into one game exactly the merged keys that the merge definition gives for its keys and venue id |
| TeamMerge.MergeOne | xgboost/testing.py:89-123 | one loop pass merges the game and raises each counter whose slot matched by one |
| TeamMerge.MergeAll | xgboost/testing.py:84-131 | after the loop, every game in place is merged with its own keys, and the three counters count the games with an SP, team-info or season-stats match |
| TeamMerge.CountsOf | xgboost/testing.py:84-123 | no counter exceeds the number of games |
| TeamMerge.Unmerged | xgboost/testing.py:53 | the games as delivered, one entry per game, with nothing merged yet |
| TeamMerge.RawGamesCollection.FetchAndMergeAll | xgboost/testing.py:49-153 | the collection is cleared; with no games, the result is empty and nothing is stored; otherwise every game is merged and the merged games are both stored and returned |
| TeamMerge.MergedGamesCarrySlots | xgboost/testing.py:89-131 | game i of the result keeps its delivered fields and carries the merged keys computed from its own names and venue id |
| Auth.ParseInt | backend/routes/auth.js:24 | text holding no decimal digit (0-9) reads as NaN, and a negative result needs a `-` after the leading white space |
| Auth.DigitPrefixIsLongest | backend/routes/auth.js:24 | `parseInt` reads the longest run of digits at the start |
| Auth.ParseIntOfDecimal | backend/routes/auth.js:24 | `parseInt` of an integer's decimal text, followed by any text that does not continue the number, gives that integer |
| Auth.ParseIntSkipsSpace | backend/routes/auth.js:24 | `parseInt` skips leading white space |
| Auth.MaxAge | backend/routes/auth.js:21-26 | the lifetime is NaN only for a text ending in "d" |
| Auth.MaxAgeOfDays | backend/routes/auth.js:24 | "Nd" gives N days in milliseconds |
| Auth.SevenDayFallback | backend/routes/auth.js:23-25 | a text not ending in "d", and an unset or empty `JWT_EXPIRES_IN`, both give seven days |
| Auth.SafeUserOf | backend/routes/auth.js:46 | the user sent back carries the user's id, name, email and favourite team and nothing else (no password hash) |
| Auth.FindFirst | backend/routes/auth.js:60 | the user found is a stored user meeting the condition; when none is found, no stored user meets it |
| Auth.FindByEmail | backend/routes/auth.js:60 | a user found holds that email; when none is found, no user holds it |
| Auth.FindById | backend/routes/auth.js:97 | a user found holds that id; when none is found, no user holds it |
| Auth.FindByEmailUnique | backend/models/user.js:7 | with the unique email index, the user holding an email is the one found |
| Auth.Login | backend/routes/auth.js:55-75 | missing email or password gives 400; no user with that email and a matching password gives 401 "Invalid credentials"; 200 only for such a user, with the token cookie and that user; 500 only when the cookie lifetime is NaN |
| Auth.LoginSucceedsExactlyWhen | backend/routes/auth.js:58-70 | with unique emails and a numeric lifetime, login succeeds iff both fields are given and the password matches the hash of the user holding the email |
| Auth.Logout | backend/routes/auth.js:78-86 | answers 200 "Logged out" and clears the cookie named by `COOKIE_NAME` (default "ngs_token"), with httpOnly and the secure flag set, and sameSite "none" when secure, "lax" otherwise |
| Auth.LogoutClearsLoginCookie | backend/routes/auth.js:15-16 | logout clears the very cookie name and secure flag that login sets |
| Auth.TokenOf | backend/routes/auth.js:92-93 | the token is the value of the cookie named by `COOKIE_NAME` when that cookie is present and non-empty; otherwise there is no token |
| Auth.Me | backend/routes/auth.js:89-106 | 200 iff a non-empty token cookie is present, verifies, and names a stored user, and the body is that user; every other case is 401 "Not authenticated" |
| Auth.LoginThenMe | backend/routes/auth.js:89-101 | sending back the cookie of a successful login, whose token verifies to the user's id, makes "who am I" answer with the same user |
| Auth.NewUser | backend/models/user.js:19-23 | the stored user carries the request's name and email, the password's hash, and the favourite team, defaulting to "" |
| Auth.SignupThenLogin | backend/routes/auth.js:41-70 | after a signup with a new email, logging in with the same email and password finds the new user and succeeds |
| Auth.UserStore.Signup | backend/routes/auth.js:31-52 | missing fields give 400 and a taken email gives 409, both leaving the collection unchanged; otherwise the new user is appended with a fresh id and the answer is 201 with the token cookie and the user, or 500 with the user already stored when the lifetime is NaN; emails and ids stay unique |
| Auth.RepeatSignupConflicts | backend/routes/auth.js:38-39 | after a signup, a second signup with the same email finds it taken |
| Subscribe.SubscribeOutcome | backend/routes/subscriberRoutes.js:8-21 | the status is 200, 400 or 409, and the collection is either unchanged or has the request's email, absent before, appended |
| Subscribe.SubscribeChanges | backend/routes/subscriberRoutes.js:8-21 | 400 iff the email is missing or empty; 409 iff it is already subscribed; otherwise 200 with the email appended; only a 200 changes the collection |
| Subscribe.SubscribeKeepsNoDup | backend/routes/subscriberRoutes.js:14-19 | each email stays in the collection at most once |
| Subscribe.RepeatSubscribeConflicts | backend/routes/subscriberRoutes.js:14-17 | subscribing an email a second time answers 409 and changes nothing |
| Subscribe.SubscribeAllFacts | backend/routes/subscriberRoutes.js:6-26 | after any run of requests, the collection holds, each once, exactly its former emails and every non-empty email a request carried; it grew by one per 200 answer |
| Subscribe.SubscriberList.Subscribe | backend/routes/subscriberRoutes.js:6-26 | the handler's new collection and answer are those of the subscribe outcome, and duplicates stay excluded |
| GameStore.Stored | backend/server.js:23-35 | a stored game keeps its id, week, teams, start date and both conferences, and loses the betting attributes the schema lacks |
| GameStore.StoredAll | backend/server.js:23-35 | the batch holds each row as the schema keeps it, in order |
| GameStore.InsertUnordered | backend/server.js:72-74 | the unordered insert keeps every stored document in its place and adds at most the batch |
| GameStore.InsertUnorderedFacts | backend/server.js:72-74 | the unordered insert keeps what was stored, keeps ids unique, adds only batch documents and leaves every document's id stored |
| GameStore.InsertUnorderedKeepsFirst | backend/server.js:72-74 | of several documents with one id, the first is the one stored |
| GameStore.InsertUnorderedCount | backend/server.js:72-76 | at most the whole batch is inserted, and all of it exactly when no id repeats in the batch or is already stored |
| GameStore.DistinctBatchIsStoredWhole | backend/server.js:72-76 | a batch of distinct new ids is stored whole and in order |
| GameStore.StoredRowsAreValid | backend/server.js:69-72 | every stored game is a row naming both teams, as the schema keeps it |
| GameStore.GameCollection.Refill | backend/server.js:44-81 | the collection is cleared first; an unreachable service or a non-OK answer gives 500 and an empty collection; otherwise the rows naming both teams are inserted, and the message reports the batch size, or 0 when a duplicate id made the insert reject |
| GameStore.GameCollection.ListGames | backend/server.js:85-98 | a permutation of the stored games ordered by week |
| SecSchedule.SecGames | backend/routes/email.js:10-12 | a permutation of the games with an SEC side, ordered by week |
| SecSchedule.SecGamesAreTheSecOnes | backend/routes/email.js:10-12 | a game is selected iff it is stored and its home or away conference is SEC |
| SecSchedule.CellTexts | backend/routes/email.js:20-29 | a game's row has one cell per header column, in the header's order, each showing what that column shows for the game |
| SecSchedule.CellsUnderTitles | backend/routes/email.js:20-29 | the cell under "Week" is the week's number, under "Date" the rendered start date, under "Away Team" the away team, under "Home Team" the home team, and under "Spread" and "Over/Under" those values or "N/A" |
| SecSchedule.ScheduleHtml | backend/routes/email.js:19-32 | the message opens with the heading and the table and ends by closing the table |
| SecSchedule.RowShape | backend/routes/email.js:23-30 | every game row opens and closes a table row |
| SecSchedule.MissingOddsPrintAsNA | backend/routes/email.js:28-29 | a missing spread or over/under prints as "N/A", exactly as if that were its value |
| SecSchedule.AppendRows | backend/routes/email.js:22-31 | the loop appends the rows of the games in order |
| SecSchedule.BuildHtml | backend/routes/email.js:19-32 | the built text is the heading, the header row, one row per game in order, and the table's end |
| SecSchedule.SendSecSchedule | backend/routes/email.js:7-45 | 404 "No SEC games found" iff there is no SEC game, and then no mail is sent; otherwise the schedule is mailed to `SEND_TO_EMAIL` with subject "Weekly SEC Schedule", answering 200, or 500 with the mailer's error message |

## Left out

- Network I/O, the database driver and logging are not modelled. HTTP responses and stored collections are values, and log lines are dropped.
- Concurrency is not modelled. Each handler runs to completion on its own; React's `ignore` flag for an unmounted page (Scoreboard.jsx:20, 28) plays no part.
- bcrypt and JWT are opaque parameters: `passwordHash`, `matches`, `sign` and `verify`. Token expiry is therefore not modelled.
- Auth.Login: a `jwt.sign` that throws on a malformed `JWT_EXPIRES_IN` (the 500 branch) is not modelled, because `sign` is total here. The only 500 modelled is a NaN cookie lifetime.
- Auth.UserStore.Signup: for the same reason, a throwing `jwt.sign` after the user is created is not modelled.
- Database failures are not modelled: the 500 "Server error" of signup, login and subscribe, and the listing route's 500.
- Auth.MaxAge: JavaScript numbers are modelled as unbounded integers. Float rounding of very large day counts and the value -0 are not modelled.
- A NaN `maxAge` makes Express's `res.cookie` throw. This is library behaviour, and the model takes it as the 500 answer.
- Mongoose schema conversions are not modelled: lower-casing and trimming the email, trimming the name, and `required` checks on non-string values. Request bodies are modelled as optional texts.
- A `favoriteTeam` of `null` is not distinguished from an absent one. Both store "".
- Fresh MongoDB ObjectIds are modelled as the counter `nextId`.
- Number parsing stops at integers: `Number(g.week)` on non-integer weeks, and `Number(value)` on option texts other than an integer's decimal text, are not modelled. Weeks are integers.
- Dates are inputs. The page's current date, `new Date(...)` and `toLocaleDateString()` are given as the day count `daysSinceStart`, the function `timeOf` and the function `dateText`.
- The page's `loading` flag and the error message text are not modelled. Only whether the fetch failed is kept.
- The page's rendering (JSX markup) is not modelled.
- TeamNames.NormalizeTeamName: `str.lower()` is modelled on ASCII letters only. Non-ASCII case mapping is not modelled.
- TeamNames.NormalizeTeamName: a non-text `homeTeam`/`awayTeam` value is modelled as a missing name, giving "". Python gives "" for a falsy one and raises AttributeError for a truthy one.
- TeamMerge.SchoolKey and TeamMerge.TeamKey: a truthy non-text `school` or `team` in a statistics row makes Python raise AttributeError and abort the script. The model indexes such a row under "".
- TeamMerge.RawGamesCollection.FetchAndMergeAll: pymongo's `insert_many` also adds an `_id` to every game dict it inserts, so the returned games carry it. The model returns the games without `_id`.
- The `KeyError` that Python raises when a statistics row lacks `school`, `team` or `id` is not modelled. A row without the attribute is indexed under the normalised empty name, or under `Null` for venues.
- The `lines`, `rankings`, `coaches` and `conferences` endpoints are fetched by the script but never read, so they are not modelled.
- The HTTP requests of `fetch_endpoint` are not modelled. A failed request arrives as an empty list, and the year parameter is not modelled.
- In `TeamMerge`, JSON attribute names are the `Key` datatype. `Named(n)` stands for any name other than the six the merge reads.
- The upstream request headers (`CFB_API_KEY`) and the hard-coded season year are not modelled.
- SecSchedule.Printed: an absent attribute and a stored `null` both print as "undefined" in the team cells. A template literal prints `null` as "null". The week is an integer here, so a missing or `null` week is not modelled either.
- Scoreboard.ScoreboardPage.SortedGames: `timeOf` gives an integer for every start date. An unparsable `startDate` (an Invalid Date, whose difference is NaN) is not modelled; with it, the order `Array.prototype.sort` produces is implementation-defined.
- Which document an unordered `insertMany` keeps among documents sharing an id is modelled as the first, in batch order.
- A row without an `id` is not modelled. Every row is taken to carry one.
- Validation errors other than the duplicate key are not modelled; the model rejects only on the duplicate key.
- GameStore.GameCollection.ListGames and SecSchedule.SecGames: MongoDB states no order among games of the same week. The model fixes one: a stable sort, which keeps ties in stored order.
- `backend/routes/email.js` reads games through `backend/models/game.js`. That schema declares neither conferences, start date, spread nor over/under. The model reads the stored games as carrying these attributes, as the route expects.
- The mailer transport (`backend/utils/mailer.js`) is not modelled. Its outcome is the input `mailError`.
- backend/models/subscriber.js is not part of this model. The subscriber collection is modelled as a list of email texts.
