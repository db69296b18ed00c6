# Clan season rankings — a Dafny model

This project models the core of a small clan-management web application.
The application has three parts.

- **Results page** (`ResultsPage.jsx`). For each season it shows two rankings: one by access phase (`fase`) and one by the sum of the three rounds. Each ranking is cut into the first thirty and an overflow, with a total over the first thirty only. The page also shows each participant's phase evolution against the previous season and steps between seasons with a page counter.
- **Registration page** (`RegisterPage.jsx`). It builds the roster of a new season: add, edit in place, remove, cancel an edit, import a CSV file and submit the season. While a name is typed, the page looks up that name's habby id among the known users.
- **Flask backend** (`App.py`). The route guards, user registration (the first user becomes the administrator), role changes, deletion, user search, the whitelisted profile update, season creation, the per-user season history and the home-page requirements list, which is stored as one `;`-separated text.

Layout, one module per file:

| file | module | models |
|---|---|---|
| `wrappers.dfy` | `Wrappers` | `Option`, `Min` |
| `text.dfy` | `Text` | `split`, `join`, JavaScript `trim`, and decimal rendering of integers |
| `ranking.dfy` | `Ranking` | `getRankingData`, the rank column, `calculateEvolution` and `renderEvolution` |
| `results_view.dfy` | `ResultsView` | the results page's state (`seasons`, `currentPage`) as a class |
| `roster.dfy` | `Roster` | the name lookup, the CSV parser, the edit index, and the roster builder as a class |
| `backend_auth.dfy` | `Auth` | JSON values, Python truthiness, the session, `login_required` and `roles_required` |
| `backend_users.dfy` | `Users` | the decisions of `register_user`, `update_user_role`, `delete_user` and `search_users` |
| `backend_profiles.dfy` | `Profiles` | `update_user_profile`: the whitelist loop and its decision |
| `backend_seasons.dfy` | `Seasons` | `create_season`, and how it agrees with what the roster builder submits |
| `backend_history.dfy` | `History` | `get_user_history`: positions, evolution, and the memoising loop |
| `backend_home.dfy` | `HomeContent` | `get_home_content` and `update_home_content` (requirements split and join) |
| `backend_store.dfy` | `Store` | the tables as a class whose handlers apply the decisions above |

Each handler is split in two.
- A pure decision function computes the status code and the row to write.
- A method of `Store.Database` applies the decision to the tables.

The request body is a JSON `Value`. The session is a `Session` value. Database query results that the model does not compute are parameters:
- the rows a `LIKE` search finds;
- a season's ranking rows;
- the user's participations.

## Model

| member | source | states |
|---|---|---|
| `Text.Split` | Frontend/src/components/ranking/RegisterPage.jsx:125-127 | `split` on one character gives one more part than there are separators, and no part contains the separator |
| `Text.JoinSplit` | Backend/App.py:383 | joining the parts of a split on `;` gives back the stored text |
| `Text.SplitAppend` | Frontend/src/components/ranking/RegisterPage.jsx:125 | splitting `a + sep + b` gives the parts of `a` followed by those of `b` |
| `Text.SplitWithoutSeparator` | Frontend/src/components/ranking/RegisterPage.jsx:125 | a text without the separator splits into itself alone |
| `Text.SplitJoin` | Backend/App.py:393 | splitting a join of at least one separator-free part gives back the parts |
| `Text.Lead` | Frontend/src/components/ranking/RegisterPage.jsx:131-136 | the count of leading whitespace is at most the length, and the character after it is not whitespace |
| `Text.Trail` | Frontend/src/components/ranking/RegisterPage.jsx:131-136 | the count of trailing whitespace is at most the length, and the character before it is not whitespace |
| `Text.LeadIsWhitespace` | Frontend/src/components/ranking/RegisterPage.jsx:131-136 | every counted leading character is whitespace |
| `Text.TrailIsWhitespace` | Frontend/src/components/ranking/RegisterPage.jsx:131-136 | every counted trailing character is whitespace |
| `Text.Trim` | Frontend/src/components/ranking/RegisterPage.jsx:131-136 | `trim()` keeps one contiguous slice of its input, starting after the leading whitespace |
| `Text.TrimDropsWhitespace` | Frontend/src/components/ranking/RegisterPage.jsx:131-136 | every character outside the kept slice is whitespace |
| `Text.TrimEnds` | Frontend/src/components/ranking/RegisterPage.jsx:131-136 | the kept slice neither starts nor ends with whitespace |
| `Text.TrimIdempotent` | Frontend/src/components/ranking/RegisterPage.jsx:131-136 | trimming twice is trimming once |
| `Text.TrimEmptyIff` | Frontend/src/components/ranking/RegisterPage.jsx:131-136 | trimming gives `""` exactly when the input is all whitespace (in both directions) |
| `Text.NatToDecimal` | Frontend/src/components/ranking/ResultsPage.jsx:91 | rendering a number gives at least one decimal digit and no leading zero |
| `Text.NatToDecimalRoundTrip` | Frontend/src/components/ranking/ResultsPage.jsx:91 | reading the rendered digits back gives the number |
| `Ranking.Insert` | Frontend/src/components/ranking/ResultsPage.jsx:31 | inserting one participant adds exactly that participant (length and multiset) |
| `Ranking.InsertDescending` | Frontend/src/components/ranking/ResultsPage.jsx:31 | inserting into a list in descending metric order keeps the order descending |
| `Ranking.SortDesc` | Frontend/src/components/ranking/ResultsPage.jsx:31 | the sort by metric, largest first, is a permutation of its input in non-increasing order |
| `Ranking.InsertWithKey` | Frontend/src/components/ranking/ResultsPage.jsx:31 | inserting `x` puts it at the front of its own equal-metric class and leaves the other classes unchanged |
| `Ranking.SortKeepsOrderOfEqualKeys` | Frontend/src/components/ranking/ResultsPage.jsx:36-38 | the sort is stable: participants with equal metric keep their input order |
| `Ranking.SumKeyAppend` | Frontend/src/components/ranking/ResultsPage.jsx:34 | the `reduce` sum over a concatenation is the sum of the two sums |
| `Ranking.SumKeyInsert` | Frontend/src/components/ranking/ResultsPage.jsx:34 | inserting a participant adds its metric to the sum |
| `Ranking.SumKeySort` | Frontend/src/components/ranking/ResultsPage.jsx:41 | sorting does not change the sum of the metric |
| `Ranking.WithTotals` | Frontend/src/components/ranking/ResultsPage.jsx:37 | the map gives one copy per participant, in order, each with `total` set to `r1 + r2 + r3` |
| `Ranking.Cut` | Frontend/src/components/ranking/ResultsPage.jsx:32-34 | the first part has `min(30, n)` rows, the two parts concatenate back to the sorted list, and the sum covers the first part only |
| `Ranking.GetRankingData` | Frontend/src/components/ranking/ResultsPage.jsx:30-51 | both rankings have `min(30, n)` top rows, top plus overflow count every participant, and each sum is over its top rows |
| `Ranking.RankingsAreStableSorts` | Frontend/src/components/ranking/ResultsPage.jsx:30-41 | each ranking is a permutation of its input (of the total-carrying copies for the round ranking), non-increasing, stable on ties, and every row of the round ranking has `total == r1 + r2 + r3` |
| `Ranking.TopSumExcludesOverflow` | Frontend/src/components/ranking/ResultsPage.jsx:34-41 | each top sum equals the sum over everyone minus the overflow, and no overflow row outranks a top row |
| `Ranking.TopDominatesRest` | Frontend/src/components/ranking/ResultsPage.jsx:32-33 | in a descending list cut in two, every row of the first part has a metric at least that of every row of the second |
| `Ranking.RanksContinueAcrossCut` | Frontend/src/components/ranking/ResultsPage.jsx:121-137 | the ranks shown by `Ranking.TableRows` through `Ranking.DisplayedRank` (`i + 1` on top, `30 + i + 1` in the overflow) are each row's index in the full sorted list plus one |
| `Ranking.FindByName` | Frontend/src/components/ranking/ResultsPage.jsx:65-66 | `find` by exact name returns the first match, and finds nothing exactly when no participant has that name |
| `Ranking.CalculateEvolution` | Frontend/src/components/ranking/ResultsPage.jsx:55-73 | the result is `"-"` exactly when the index is not in `1..n-1` or either season lacks the name; otherwise it is the current phase minus the previous phase of the first name matches |
| `Ranking.FirstNamedUnique` | Frontend/src/components/ranking/ResultsPage.jsx:65 | there is only one first match |
| `Ranking.RenderEvolution` | Frontend/src/components/ranking/ResultsPage.jsx:81-94 | `"-"` and the neutral class exactly for a missing evolution; a `+` prefix and the positive class exactly for a positive number; a `-` and the negative class exactly for a negative one; the digits after the sign are the magnitude's decimal form without leading zeros (`Text.NatToDecimal`) and read back as the magnitude |
| `ResultsView.ResultsPage.constructor` | Frontend/src/components/ranking/ResultsPage.jsx:6-7 | no seasons and page 1 |
| `ResultsView.ResultsPage.SeasonsFetched` | Frontend/src/components/ranking/ResultsPage.jsx:15-19 | the page moves to the newest season when there is one, and the page stays at least 1, and at most `totalPages` when there are seasons |
| `ResultsView.ResultsPage.DisplayedSeason` | Frontend/src/components/ranking/ResultsPage.jsx:28 | a season is shown exactly when seasons exist, and it is `seasons[currentPage - 1]`, an index in range |
| `ResultsView.ResultsPage.DisplayedRanking` | Frontend/src/components/ranking/ResultsPage.jsx:53 | the rankings shown are `getRankingData` of the displayed season's participants |
| `ResultsView.ResultsPage.PreviousPage` | Frontend/src/components/ranking/ResultsPage.jsx:196-201 | the page steps down unless it is 1 (or no season is shown), and the page stays at least 1, and at most `totalPages` when there are seasons |
| `ResultsView.ResultsPage.NextPage` | Frontend/src/components/ranking/ResultsPage.jsx:202-207 | the page steps up unless it is the last (or no season is shown), and the page stays at least 1, and at most `totalPages` when there are seasons, where `ResultsView.ResultsPage.TotalPages` is `seasons.length` (line 27) |
| `ResultsView.ResultsPage.EvolutionCellFor` | Frontend/src/components/ranking/ResultsPage.jsx:81-82 | the cell shows `"-"` exactly on the first page, without seasons, or when the shown or the previous season lacks the name |
| `Roster.LookupHabbyId` | Frontend/src/components/ranking/RegisterPage.jsx:42-46 | the habby id of the first user whose nick or username equals the typed name, and null when no user matches |
| `Roster.ParseCsvLine` | Frontend/src/components/ranking/RegisterPage.jsx:126-139 | a line gives a record exactly when its first three comma fields are non-empty before trimming, and a kept record always has a habby id |
| `Roster.ParseCsvLines` | Frontend/src/components/ranking/RegisterPage.jsx:126-140 | the map-then-filter keeps at most one record per line |
| `Roster.ParseCsv` | Frontend/src/components/ranking/RegisterPage.jsx:125-140 | fewer records than lines, since the header line never gives one |
| `Roster.ParseCsvLinesAppend` | Frontend/src/components/ranking/RegisterPage.jsx:126-140 | records come out in file order: parsing two blocks of lines gives the first block's records, then the second's |
| `Roster.ParseCsvLinesMembers` | Frontend/src/components/ranking/RegisterPage.jsx:126-140 | every record is the parse of some line, and every admissible line contributes its record |
| `Roster.HeaderDiscarded` | Frontend/src/components/ranking/RegisterPage.jsx:125 | the first line is dropped whatever it holds: the file parses as its body alone |
| `Roster.KeptFieldsTrimmed` | Frontend/src/components/ranking/RegisterPage.jsx:129-133 | name, habby id and phase are the first three fields trimmed, and a whitespace-only name or phase passes the check and becomes `""` |
| `Roster.RoundOrZeroDefaults` | Frontend/src/components/ranking/RegisterPage.jsx:134-136 | `Roster.RoundOrZero` (`r ? r.trim() : "0"`): a missing or empty round reads as `"0"`, a present one is trimmed, and a whitespace-only one becomes `""` |
| `Roster.KeptRoundsFromColumns` | Frontend/src/components/ranking/RegisterPage.jsx:134-136 | the three rounds of a kept record come from the fourth to sixth columns |
| `Roster.ExtraColumnsIgnored` | Frontend/src/components/ranking/RegisterPage.jsx:127 | appending a seventh column to a line of six or more does not change its record |
| `Roster.RemoveAt` | Frontend/src/components/ranking/RegisterPage.jsx:76 | filtering out index `k` gives the records before `k` followed by those after it, and an out-of-range `k` changes nothing |
| `Roster.RemoveAsWritten` | Frontend/src/components/ranking/RegisterPage.jsx:74-78 | removal as written: the roster loses slot `k` and the edit index is left as it was |
| `Roster.RemoveAsWrittenRetargetsEdit` | Frontend/src/components/ranking/RegisterPage.jsx:74-78 | while editing slot 1 of `[a, b, c]`, removing slot 0 leaves the edit pointing at `c`, not at `b` |
| `Roster.RemoveCorrected` | Frontend/src/components/ranking/RegisterPage.jsx:74-78 | corrected removal: the roster loses slot `k` |
| `Roster.RemoveCorrectedKeepsEditTarget` | Frontend/src/components/ranking/RegisterPage.jsx:74-78 | after a corrected removal the edit index is in range and still designates the same record, or the edit ends when that record is the one removed |
| `Roster.FinalizeAsWritten` | Frontend/src/components/ranking/RegisterPage.jsx:106-109 | a successful submission as written clears the roster but keeps the edit index |
| `Roster.FinalizeAsWrittenLeavesDanglingEdit` | Frontend/src/components/ranking/RegisterPage.jsx:106-109 | submitting while editing slot 1 of `[a, b]` leaves edit index 1, beyond the end of the empty roster |
| `Roster.FinalizeCorrected` | Frontend/src/components/ranking/RegisterPage.jsx:106-109 | a corrected submission clears the roster, and the edit index stays in range |
| `Roster.RosterBuilder.constructor` | Frontend/src/components/ranking/RegisterPage.jsx:10-24 | empty roster, no users, an empty form, no edit and empty dates |
| `Roster.RosterBuilder.UsersFetched` | Frontend/src/components/ranking/RegisterPage.jsx:26-37 | only the user list changes |
| `Roster.RosterBuilder.InputChanged` | Frontend/src/components/ranking/RegisterPage.jsx:39-51 | only the form changes: typing a name also sets the habby id from the lookup, and any other input sets its own field |
| `Roster.RosterBuilder.StartDateChanged` | Frontend/src/components/ranking/RegisterPage.jsx:298 | only the start date changes |
| `Roster.RosterBuilder.EndDateChanged` | Frontend/src/components/ranking/RegisterPage.jsx:307 | only the end date changes |
| `Roster.RosterBuilder.AddOrUpdate` | Frontend/src/components/ranking/RegisterPage.jsx:54-72 | without a name and a phase nothing changes; without an edit the form is appended; with edit `k` only slot `k` is replaced and the length is kept; on success the edit ends and the form resets |
| `Roster.RosterBuilder.Remove` | Frontend/src/components/ranking/RegisterPage.jsx:74-78 | a declined confirmation changes nothing; a confirmed one removes slot `k` (nothing when out of range), keeping the order of the rest, and shifts the edit index with it |
| `Roster.RosterBuilder.BeginEdit` | Frontend/src/components/ranking/RegisterPage.jsx:81-85 | the edit index becomes `k` and the form holds record `k`; the roster is untouched |
| `Roster.RosterBuilder.CancelEdit` | Frontend/src/components/ranking/RegisterPage.jsx:88-92 | the edit ends and the form resets; the roster is untouched |
| `Roster.RosterBuilder.Finalize` | Frontend/src/components/ranking/RegisterPage.jsx:94-116 | nothing is sent with an empty roster or a missing date; otherwise the request carries the dates and the roster; success clears the roster and the dates; failure keeps all state |
| `Roster.RosterBuilder.ImportCsv` | Frontend/src/components/ranking/RegisterPage.jsx:141-142 | the parsed records are appended after the roster in file order, and the count reported is their number |
| `Auth.Get` | Backend/App.py:48-50 | `data.get(key)` is the value, or null when the key is absent |
| `Auth.LoginRequired` | Backend/App.py:24-30 | the handler runs exactly when the session has a user id; otherwise the answer is 401 |
| `Auth.RolesRequired` | Backend/App.py:32-42 | 401 without a user id, checked before the role; 403 for a missing or unlisted role; the handler runs exactly for a logged-in session with a listed role |
| `Auth.GuardsNest` | Backend/App.py:24-42 | a role guard never admits what the login guard rejects, the admin-only guard is stricter than the staff guard, and they differ only on leaders |
| `Auth.GuardsRejectMembersAndAnonymous` | Backend/App.py:24-42 | a member gets 403 from both role guards, and an anonymous request gets 401 from every guard |
| `Users.RegisterDecision` | Backend/App.py:52-64 | 400 exactly when a field is missing or empty; 409 exactly when the username or the habby id is taken; otherwise a row with the given fields whose role is admin exactly when no admin exists, member otherwise (fields as texts) |
| `Users.RegisterKeepsOneAdmin` | Backend/App.py:60-72 | inserting a registered row keeps at most one admin, and afterwards there is one |
| `Users.RegisterKeepsKeysUnique` | Backend/App.py:56-58 | usernames and habby ids stay unique across registrations |
| `Users.RoleChangeDecision` | Backend/App.py:153-169 | the admin guard first; 400 exactly for a role other than member or leader; 403 exactly for the admin's own id; otherwise the change to the requested role, which is never admin |
| `Users.RoleChangeKeepsAdmin` | Backend/App.py:159-166 | with a session that matches the tables, the target is never the admin, and the number of admins is unchanged |
| `Users.DeleteDecision` | Backend/App.py:171-193 | the staff guard first; 403 for oneself; 404 exactly for an unknown id; 403 when a leader targets a leader or the admin; deletion happens exactly when a staff member targets another existing user who, for a leader, is a member |
| `Users.AdminNeverDeleted` | Backend/App.py:177-188 | with a session that matches the tables, deleting the admin is always refused with 403 |
| `Users.SearchUsers` | Backend/App.py:197-217 | 401 exactly without login; a query shorter than 2 characters gives no rows without querying; otherwise the first `min(10, n)` matches in database order |
| `Profiles.PresentFields` | Backend/App.py:255-257 | the columns kept are exactly the whitelisted ones present in the request |
| `Profiles.PresentFieldsOrdered` | Backend/App.py:255-257 | the kept columns are in whitelist order |
| `Profiles.PresentFieldsDistinct` | Backend/App.py:255-257 | no column is kept twice when the whitelist names none twice |
| `Profiles.ProfileFieldsDistinct` | Backend/App.py:240-250 | the whitelist names no column twice |
| `Profiles.PresentFieldsAppend` | Backend/App.py:255-257 | filtering two whitelists in turn is filtering their concatenation |
| `Profiles.CollectUpdates` | Backend/App.py:252-258 | the loop collects exactly the present whitelisted columns, in order, each with the request's value |
| `Profiles.ProfileUpdateDecision` | Backend/App.py:231-272 | 401 exactly without login; 403 exactly when the request's habby id differs from the session's; 400 exactly when no whitelisted column is present; otherwise the present whitelisted columns, exactly `Profiles.PresentFields` (whitelist order, no repeats), with their values, and the session's habby id last |
| `Profiles.ProfileUpdateHandler` | Backend/App.py:233-265 | the step-by-step handler reaches the decision above, and when it writes, it assigns exactly the request restricted to the whitelist |
| `Profiles.Restrict` | Backend/App.py:255-258 | the assignments are exactly the whitelisted keys of the request, with its values |
| `Profiles.Assignments` | Backend/App.py:265 | the `SET` clause assigns exactly the listed columns |
| `Profiles.CollectedAssignments` | Backend/App.py:255-265 | the assignments the loop builds equal the request restricted to the whitelist |
| `Profiles.AssignmentsLookUp` | Backend/App.py:255-265 | every assigned column gets the request's value for it |
| `Profiles.UpdatesNeverTouchIdentity` | Backend/App.py:240-250 | `habby_id` is never among the columns written |
| `Seasons.ToRow` | Backend/App.py:309-312 | a participant row takes `name`, `fase`, `r1`, `r2` and `r3` from the object, and `habby_id` or null |
| `Seasons.ParticipantRows` | Backend/App.py:299-312 | a list gives one row per item, in order, exactly when every item is an object with the required keys; an empty text or empty object gives no rows; anything else makes the loop fail |
| `Seasons.CreateSeasonDecision` | Backend/App.py:293-317 | the staff guard first; 400 exactly when either date is missing or falsy; 500 exactly when the participant loop fails; otherwise the season is created with its dates and the loop's rows (inserts assumed to succeed) |
| `Seasons.EncodeEntry` | Frontend/src/components/ranking/RegisterPage.jsx:101-105 | each record the roster builder sends is an object with every key the backend reads |
| `Seasons.EncodeRequest` | Frontend/src/components/ranking/RegisterPage.jsx:101-105 | the request body has exactly the keys `startDate`, `endDate` and `participants` |
| `Seasons.EncodedEntryRow` | Backend/App.py:309-312 | a submitted record becomes a row with its own fields, and its habby id is null exactly when the record has none |
| `Seasons.SubmittedRosterIsAccepted` | Backend/App.py:293-317 | a staff member's submission from the roster builder passes every check of the handler and creates the season, with one row per record in roster order (inserts assumed to succeed) |
| `History.Position` | Backend/App.py:350 | the 1-based index of the first ranking row with the habby id, or none exactly when no row has it |
| `History.PositionIsRankByFase` | Backend/App.py:346-350 | in a ranking ordered by phase (nulls last), everyone before the user has at least the user's phase, and everyone with a higher phase is before the user |
| `History.EvolutionAt` | Backend/App.py:352-356 | a difference exactly when a next-older participation exists and both phases are non-null, and then it is current minus previous |
| `History.EntryAt` | Backend/App.py:358-364 | each entry carries the season id, the start date, the position, the phase and the evolution of its participation |
| `History.BuildHistory` | Backend/App.py:339-364 | the memoising loop builds exactly one entry per participation, each equal to the entry computed from the full rankings |
| `History.GetUserHistory` | Backend/App.py:320-367 | 401 exactly without login; no history exactly when there are no participations; otherwise the entry of the newest participation |
| `HomeContent.ReadRequirements` | Backend/App.py:383 | a null or empty text gives no items; otherwise one more item than `;`s, none containing `;`, and joining the items gives back the text |
| `HomeContent.RequirementsText` | Backend/App.py:393 | an absent key is stored as `""`; the join fails exactly for null, a boolean, a number, a list holding a non-text, or a non-empty object; an empty object joins to `""` |
| `HomeContent.RequirementsRoundTrip` | Backend/App.py:383-393 | items without `;` survive a write and a read exactly when they are not the single empty item |
| `HomeContent.ListPayloadStoresJoin` | Backend/App.py:393 | a list of texts is stored as their `;`-join |
| `HomeContent.TextPayloadSplitsIntoCharacters` | Backend/App.py:393 | a non-empty text sent in place of a list reads back as its characters one by one |
| `HomeContent.GetHomeContent` | Backend/App.py:375-385 | 404 exactly without the row; otherwise the row with its requirements read as a list |
| `HomeContent.HomeUpdateDecision` | Backend/App.py:387-420 | the admin guard first; 500 exactly when the requirements cannot be joined; otherwise always a write of the new row with each column from the request (null when absent) |
| `Store.NewProfile` | Backend/App.py:75-78 | the profile created with a user has the user's habby id, the username as nick and the default picture |
| `Store.ApplyProfileUpdate` | Backend/App.py:265-268 | only the rows with the session's habby id change, and only in the assigned columns |
| `Store.ProfileUpdateTouchesOnlyOwnWhitelisted` | Backend/App.py:237-268 | a profile update changes only the caller's own profile, only in whitelisted columns, and never a habby id |
| `Store.Database.constructor` | Backend/App.py:21 | empty tables with the given home row |
| `Store.Database.RegisterUser` | Backend/App.py:45-85 | on a rejection nothing changes; on success the user row and its profile are inserted under a fresh id with status 201, at most one admin exists, and afterwards one exists |
| `Store.Database.UpdateUserRole` | Backend/App.py:153-169 | on a rejection nothing changes; on success only the target's role changes, if the target exists; an admin present before is present after |
| `Store.Database.DeleteUser` | Backend/App.py:171-193 | on a rejection nothing changes; on success only the target row is removed; an admin present before is present after |
| `Store.Database.UpdateProfile` | Backend/App.py:231-272 | on a rejection nothing changes; on success the caller's profile gets the whitelisted columns of the request, with status 200 |
| `Store.Database.WriteProfile` | Backend/App.py:252-270 | the same update for a given whitelist |
| `Store.Database.CreateSeason` | Backend/App.py:293-317 | on a rejection nothing changes; on success the season and its rows are inserted under a fresh id, which is returned, with status 201 |
| `Store.Database.UpdateHomeContent` | Backend/App.py:387-420 | on a rejection nothing changes; on success the row, if it exists, is overwritten with status 200 |

## Left out

- All I/O is outside the model: axios requests, `FileReader`, `alert`, `console`, Flask's `request` and `session`, and MySQL cursors and SQL text. The tables are maps, the success of a frontend request is a boolean parameter, and `window.confirm` is a boolean parameter.
- Login, logout, the session check, the user list, profile reading and the season list (`App.py` lines 89-151, 220-229 and 276-291) only read rows or manage the session. The model takes their results as inputs (`ResultsView.ResultsPage.SeasonsFetched`, `Roster.RosterBuilder.UsersFetched`, the `Session` value).
- Password hashing and checking belong to a foreign library. `Store.Database.RegisterUser` stores the password as given.
- Date formatting (`formatDateBR`, `toLocaleString`, `strftime`) is left out. Dates are opaque texts.
- The `LIKE` matching of the user search is left out. `Users.SearchUsers` takes the matching rows as a parameter and models the guard, the length check and the limit.
- Every database statement is assumed to succeed, and every request body is assumed to be a JSON object. The model therefore leaves out these failures, each of which answers 500:
  - the `except` branches of `register_user`, `get_user_history` and `update_home_content`;
  - the unguarded `UPDATE` of `update_user_role` (`App.py` line 166) and `DELETE` of `delete_user` (line 190);
  - the unguarded `UPDATE` of `update_user_profile` (lines 265-269), which writes request values as given into typed stat columns. `Profiles.ProfileUpdateDecision` and `Store.Database.UpdateProfile` answer 200 where the database may reject such a value;
  - a body that is not an object, on which `data.get` raises in `update_user_role` (line 157), `update_user_profile` (line 237), `create_season` (line 297) and `update_home_content` (line 393). The `map<string, Value>` parameters of the decisions cannot express that body.
- The foreign-key effects of deleting a user are not modelled. `Store.Database.DeleteUser` leaves the user's profile row in place.
- The `loading` flag of the registration page is not modelled, and neither is a failed fetch, which leaves the page state unchanged.
- In the ranking engine, rounds and phases are integers, as the database serves them. In JavaScript, `r1 + r2 + r3` would concatenate if they were strings. The model does not cover that case and adds no conversion that the code lacks.
- The ranking depends on the input order, not only on the set of participants. The sort is stable, so equal-metric participants keep their input order. Permuting the input reorders them, and when such a tie straddles position 30, the first thirty change. `Ranking.SortKeepsOrderOfEqualKeys` states that order.
- `Seasons.CreateSeasonDecision`: `create_season` has no `try`, so a failing `INSERT` also ends in an uncaught 500. The model assumes every insert succeeds. Whether the database accepts a text such as `""` in a round column depends on a schema outside the model.
- `Seasons.SubmittedRosterIsAccepted`: for the same reason it proves that every check of the handler passes, not that the database takes each record. A round left blank in the form, or a CSV round of blanks only, is sent as `""`.
- `Users.RegisterDecision`: the three fields are texts (`None` for absent or null). A number or boolean field, which Python tests for truthiness and would store, is not modelled. A missing request body, which raises and answers 500, is not modelled either.
- `Users.RegisterDecision`: the test for a taken username or habby id (`Users.Taken`, `App.py` line 56) compares texts exactly. The database compares them under the column's collation, which MySQL's defaults make case- and accent-insensitive. With a user "Alice", registering "alice" answers 409 in the source but is accepted by the model. `Users.RegisterKeepsKeysUnique` proves uniqueness under exact equality only.
- `Store.ApplyProfileUpdate`: the profile row is selected by exact equality of habby ids, where `WHERE habby_id = %s` (`App.py` line 265) compares under the column's collation.
- Concurrency is not modelled: simultaneous requests, and sessions that are stale after a role change or a deletion. The admin-preservation lemmas assume that the session matches the tables (`Users.SessionMatches`).
- `HomeContent.RequirementsText`: Python also joins the keys of a non-empty JSON object. The model treats that payload as an error, because its key order is not part of a map.
- `Roster.ParseCsvLine`: its contract does not restate the trimming of each field. `Roster.KeptFieldsTrimmed`, `Roster.RoundOrZeroDefaults` and `Roster.KeptRoundsFromColumns` state it instead.
- `Roster.RosterBuilder.BeginEdit`: requires `k` to be a slot of the roster. The page only offers editing from a row of the roster table.
- `Store.Database.UpdateProfile`: the whitelist is passed to `Store.Database.WriteProfile` and `Profiles.ProfileUpdateDecision` as a parameter. `Profiles.ProfileFields` is instantiated only at the top.
- Frontend and backend evolution stay separate. `Ranking.CalculateEvolution` matches by name between consecutive seasons. `History.EvolutionAt` compares against the user's next-older participation, so seasons the user missed are skipped.

## Findings

| source | as written | input that shows it | evidently intended | confidence | as-written member | corrected member |
|---|---|---|---|---|---|---|
| Frontend/src/components/ranking/RegisterPage.jsx:74-78 | removing a record does not adjust `editingIndex` | roster `[a, b, c]`, editing slot 1 (`b`), remove slot 0: the edit now points at `c`, and the next update overwrites `c` with the form's copy of `b` | the edit index follows its record, and the edit ends when its own record is removed | not executed | `Roster.RemoveAsWritten`, `Roster.RemoveAsWrittenRetargetsEdit` | `Roster.RemoveCorrected`, `Roster.RemoveCorrectedKeepsEditTarget`, `Roster.RosterBuilder.Remove` |
| Frontend/src/components/ranking/RegisterPage.jsx:106-109 | a successful submission clears the roster but not `editingIndex` | roster `[a, b]`, editing slot 1, submit: the edit index 1 lies beyond the empty roster, so the next add writes slot 1 of an empty array and leaves a hole at slot 0; that hole is sent as `null`, and `p.get` in `create_season` then raises, which answers 500 | the edit ends with the roster | not executed | `Roster.FinalizeAsWritten`, `Roster.FinalizeAsWrittenLeavesDanglingEdit` | `Roster.FinalizeCorrected`, `Roster.RosterBuilder.Finalize` |
