# timedesk core, modelled in Dafny

timedesk is a small time-tracking web application. This project models the logic in it that can
be stated exactly once its user interface, its HTTP calls and its clock are set aside:

- **The duration toolkit** (`utils/timeCoverter.ts`, module `TimeConverter`).
  - `parseDurationToSeconds` runs a global, case-insensitive regular expression over free text and adds up every `<digits>[white space][unit]` match in seconds. When the sum is 0 it falls back to `parseInt(text) * 60`.
  - `formatToHrsMins` writes `"<h>h <m>m"`.
  - The regular expression is modelled match by match (`NextMatch`, `Tokens`). The `while` loop is the method `SumMatches`, proved to return the sum of the matches. `ParseDurationToSeconds` adds the fallback and is proved equal to the function `DurationSeconds`.
- **The routine manager** (`components/routine-manager.tsx`, module `RoutineManager`): a class holding the component's six state fields, with one method per handler.
- **The routine chart** (`components/dashboard/RoutinePieChart.tsx`, module `RoutineChart`): `formatSeconds` and the `{name, completed, remaining}` rows.
- **The project timer** (`components/dashboard/project-timer.tsx`, module `ProjectTimer`).
  - The `mm:ss` clock and the elapsed-seconds tick.
  - The start and stop handlers, each split at its `await` into the checks and a continuation that receives the server's answer.
  - The rules that enable the Start and Stop buttons.
- **The admin projects page** (`app/admin/projects/page.tsx`, module `ProjectsPage`): `formatTime`, the `goToPage` clamp, the two tag toggles, the delete filter, the save-time name check, and what `fetchProjects` stores.
- **The project actions** (`actions/projectActions.ts`, module `ProjectActions`): the query parameters of `getProjects` and the result objects of the three project calls.
- **The sign-up action** (`actions/signUpAction.ts`, module `SignUp`): the field checks, in their order, and the result.

Two helper modules support these:

- `JsText` models the JavaScript built-ins the code relies on:
  - the white-space set shared by `\s`, `trim` and `parseInt`;
  - ASCII case folding;
  - decimal rendering of integers;
  - `padStart`;
  - `join` and `split`;
  - a radix-10 `parseInt`;
  - the truncating `%`;
  - `value || "default"`.
- `Seqs` models `Array.prototype.filter`.

Outcomes of server calls, ids from `Date.now()` and the current time are parameters. An `alert` is returned as a flag or as its message.

How the code treats numbers without a unit:

- A number with no unit is one match worth that many seconds.
- The fallback runs only when the matches add up to 0. In that case the leading integer `parseInt` finds is itself 0, or there is none. So with a radix-10 `parseInt` the fallback never changes the result (`TimeConverter.DurationIsTokenSum`), and `"45"` is 45 seconds. The only inputs it can change are those whose leading integer, after optional white space and a sign, starts with `0x` or `0X`, which `parseInt` reads as hexadecimal (see "## Left out").
- Because the unit alternation is ordered and `h`, `m` and `s` come first, the unit group only ever captures one letter. `"90 mins"` is read as 90 and `m`, and the longer names in the `switch` are never reached (`TimeConverter.CaptureIsOneLetter`).

## Model

| member | source | states |
|---|---|---|
| TimeConverter.CaptureIsOneLetter | utils/timeCoverter.ts:3 | The unit group captures exactly the first character when it is h, m or s in either case, and nothing otherwise: the ordered alternation never captures `hr`, `hours`, `min` or `secs` whole. |
| TimeConverter.CaptureUnit | utils/timeCoverter.ts:3 | What the optional unit group captures is a prefix of the text after the number and white space. |
| TimeConverter.MatchAt | utils/timeCoverter.ts:3 | A match that starts at a digit consumes at least one character and no more than the text. |
| TimeConverter.NextMatch | utils/timeCoverter.ts:7 | `exec` resumed at `lastIndex` finds a match that lies inside the rest of the text and moves `lastIndex` forward. |
| TimeConverter.ParseDurationToSeconds | utils/timeCoverter.ts:1-43 | The loop over the matches plus the minutes fallback returns `DurationSeconds(duration)`; with `parseInt` read in radix 10 the result is never negative. |
| TimeConverter.SumMatches | utils/timeCoverter.ts:4-35 | The `while` loop visits the matches in order and returns the sum of their seconds, `TotalSeconds(Tokens(duration))`. |
| TimeConverter.FallbackIsZero | utils/timeCoverter.ts:37-40 | When the matches add up to 0, the integer `parseInt` reads is 0 (or there is none). |
| TimeConverter.DurationIsTokenSum | utils/timeCoverter.ts:37-42 | With a radix-10 `parseInt`, the result is the sum of the matches' seconds and so never negative: the `* 60` fallback can never change it. |
| TimeConverter.LeadingIntegerBound | utils/timeCoverter.ts:37-39 | The integer `parseInt` reads at the front is, in size, at most the sum of the matches (its digits are the first match's number). |
| TimeConverter.FirstMatchBound | utils/timeCoverter.ts:7-9 | A text that starts with digits is worth at least the value of those digits. |
| TimeConverter.LetterUnitSeconds | utils/timeCoverter.ts:9-33 | A one-letter unit multiplies by 3600 for h, 60 for m and 1 for s, in either case. |
| TimeConverter.UnitWordSeconds | utils/timeCoverter.ts:3-33 | A number followed by optional white space and a unit word counts the number times the seconds of the word's first letter, plus whatever the rest of the text is worth. |
| TimeConverter.BareNumberIsSeconds | utils/timeCoverter.ts:9 | A rendered number with no unit is worth that many seconds. |
| TimeConverter.ExampleBare | utils/timeCoverter.ts:9 | `"45"` is worth 45. |
| TimeConverter.NoDigitsIsZero | utils/timeCoverter.ts:37-42 | Text without a digit is worth 0 (the fallback's `parseInt` is `NaN`). |
| TimeConverter.TokensUnit | utils/timeCoverter.ts:3-9 | Digits, white space and a unit letter make one match with that number and unit, followed by the matches of the rest. |
| TimeConverter.TokensBare | utils/timeCoverter.ts:3-9 | A bare run of digits is one match without a unit. |
| TimeConverter.SkipNoDigits | utils/timeCoverter.ts:7 | Text without digits in front adds no match. |
| TimeConverter.TokensAppend | utils/timeCoverter.ts:7-35 | The matches of a text that ends in neither a digit nor white space, followed by more text, are the matches of the first part then those of the second. |
| TimeConverter.NextMatchAppend | utils/timeCoverter.ts:7 | In such a joined text the search finds the first part's match if it has one, and otherwise the second part's match, shifted. |
| TimeConverter.TotalSecondsAppend | utils/timeCoverter.ts:17-32 | The total of two lists of matches is the sum of their totals. |
| TimeConverter.OrderIndependent | utils/timeCoverter.ts:7-35 | Matches add up regardless of order: two closed pieces joined by a space are worth the sum of the pieces, in either order (so `"1h 30m"` and `"30m 1h"` agree). |
| TimeConverter.JoinedWithSpace | utils/timeCoverter.ts:7-35 | The matches of two pieces joined by a space add up to the sum of the matches of each piece. |
| TimeConverter.IgnoresCase | utils/timeCoverter.ts:3 | Texts that differ only in ASCII case are worth the same. |
| TimeConverter.MatchAtIgnoresCase | utils/timeCoverter.ts:3-9 | In such texts the first match has the same length and the same value. |
| TimeConverter.CaptureIgnoresCase | utils/timeCoverter.ts:3 | In such texts the unit group captures text of the same length and the same lower case. |
| TimeConverter.FormatToHrsMinsParts | utils/timeCoverter.ts:45-49 | For n >= 0 the text is n div 3600 hours and (n mod 3600) div 60 minutes, the minutes in 0..59, and together they are n rounded down to a whole minute. |
| TimeConverter.HoursThenMinutes | utils/timeCoverter.ts:1-49 | The matches of `"<h>h <m>m"` add up to h hours plus m minutes. |
| TimeConverter.FormatThenParse | utils/timeCoverter.ts:1-49 | Round trip: parsing what `formatToHrsMins(n)` writes gives n - n % 60; only the leftover seconds are lost. |
| JsText.Trim | components/routine-manager.tsx:29 | The trimmed text has no white space at either end, is no longer than the text, and is empty exactly when the text is all white space. |
| JsText.TrimRemovesOuterSpace | components/routine-manager.tsx:35-36 | Trimming keeps one contiguous part of the text and removes only white space before and after it. |
| JsText.TrimIdempotent | components/routine-manager.tsx:35-36 | Trimming a trimmed text changes nothing. |
| JsText.ParseIntRendered | utils/timeCoverter.ts:38 | `parseInt` reads back every integer as JavaScript renders it. |
| JsText.NatToStringValue | utils/timeCoverter.ts:48 | The digits a number is rendered with have that number as their value. |
| JsText.JsRem | utils/timeCoverter.ts:47 | `%` with a positive divisor: the ordinary remainder for a non-negative dividend, a non-positive one for a negative dividend, with a quotient truncated toward zero. |
| JsText.PadStartZerosValue | components/dashboard/project-timer.tsx:70-73 | Padding digits with `"0"` keeps them digits and keeps their value. |
| JsText.SplitJoin | actions/projectActions.ts:19 | Splitting at a separator undoes joining with it when no part contains the separator. |
| JsText.OrElse | actions/signUpAction.ts:31 | The or-default idiom: a missing or empty value gives the fallback, any other value gives itself. |
| RoutineManager.ApplyEdit | components/routine-manager.tsx:54-58 | A saved edit keeps the length and every id; routines whose id is not `editId` are unchanged, and those with it take the new name and time. |
| RoutineManager.ApplyEditNothingSelected | components/routine-manager.tsx:54-58 | With `editId` null, saving changes no routine. |
| RoutineManager.ApplyEditKeepsEntries | components/routine-manager.tsx:49-58 | Saving trimmed, non-blank text keeps every routine's name and time trimmed and non-blank. |
| RoutineManager.ApplyEditIdempotent | components/routine-manager.tsx:54-58 | Saving the same edit twice is saving it once. |
| RoutineManager.Without | components/routine-manager.tsx:70-72 | Deleting removes every routine with the id and keeps every other one, each as many times as it was there. |
| Seqs.FilterCounts | components/routine-manager.tsx:71 | `filter` keeps every copy of each element that passes the test and no copy of any other. |
| RoutineManager.WithoutKeepsOrder | components/routine-manager.tsx:71 | The remaining routines keep their original order. |
| RoutineManager.WithoutAbsent | components/routine-manager.tsx:71 | Deleting an id that is not there changes nothing. |
| RoutineManager.WithoutKeepsEntries | components/routine-manager.tsx:71 | Deleting keeps every remaining routine trimmed and non-blank. |
| RoutineManager.Manager.constructor | components/routine-manager.tsx:21-26 | The list, the inputs and the edit buffer start empty. |
| RoutineManager.Manager.AddRoutine | components/routine-manager.tsx:28-41 | A blank name or time alerts and changes nothing; otherwise exactly one routine with the given id and the trimmed text is appended at the end and both inputs are cleared; every routine stays trimmed and non-blank. |
| RoutineManager.Manager.StartEditing | components/routine-manager.tsx:43-47 | The routine's id, name and time are copied into the edit buffer; the list is not touched. |
| RoutineManager.Manager.SaveEdit | components/routine-manager.tsx:49-62 | A blank edit field alerts and changes neither the list nor the buffer; otherwise the list becomes `ApplyEdit` of the trimmed text and the buffer is cleared. |
| RoutineManager.Manager.CancelEdit | components/routine-manager.tsx:64-68 | The edit buffer is cleared and the list is left alone. |
| RoutineManager.Manager.DeleteRoutine | components/routine-manager.tsx:70-72 | The list becomes `Without(list, id)`. |
| RoutineManager.Manager.SetName | components/routine-manager.tsx:88 | The name input holds what was typed. |
| RoutineManager.Manager.SetTime | components/routine-manager.tsx:100 | The time input holds what was typed. |
| RoutineManager.Manager.SetEditName | components/routine-manager.tsx:124 | The edit name holds what was typed. |
| RoutineManager.Manager.SetEditTime | components/routine-manager.tsx:131 | The edit time holds what was typed. |
| RoutineChart.FormatSecondsShape | components/dashboard/RoutinePieChart.tsx:27-31 | For n >= 0 the minutes, 0..59, are always shown; an `h` appears exactly when n div 3600 is not 0; the text ends in `m`. |
| RoutineChart.FormatSecondsWithHours | components/dashboard/RoutinePieChart.tsx:27-31 | With a non-zero hour count `formatSeconds` writes what `formatToHrsMins` writes. |
| RoutineChart.FormatSecondsThenParse | components/dashboard/RoutinePieChart.tsx:27-31 | Round trip: parsing the tooltip text gives n - n % 60. |
| RoutineChart.BarOf | components/dashboard/RoutinePieChart.tsx:35-40 | `completed` is max(original - remaining, 0), so it is never negative; `remaining` and the name pass through; when remaining <= original, completed + remaining == original. |
| RoutineChart.ChartData | components/dashboard/RoutinePieChart.tsx:34-41 | No list gives no data; otherwise one row per routine, same length and order. |
| RoutineChart.Bars | components/dashboard/RoutinePieChart.tsx:34-41 | Row i is the row of routine i. |
| RoutineChart.BarsAddUp | components/dashboard/RoutinePieChart.tsx:36-40 | When no routine has more remaining than it started with, the stacked bars add up to the total original duration. |
| ProjectTimer.FormatClockShape | components/dashboard/project-timer.tsx:69-75 | For n >= 0 the clock is the whole minutes, at least two digits, then `:`, then the leftover seconds as exactly two digits below 60. |
| ProjectTimer.ReadClock | components/dashboard/project-timer.tsx:74 | A text reads as a clock only when it has a `:` followed by exactly two characters, after at least two characters of minutes. |
| ProjectTimer.ReadFormatClock | components/dashboard/project-timer.tsx:69-75 | Round trip: reading the clock gives back the count it shows. |
| ProjectTimer.ElapsedSeconds | components/dashboard/project-timer.tsx:32 | The tick's value is the whole seconds since the start: e*1000 <= now - start < e*1000 + 1000, and it is non-negative when now >= start. |
| ProjectTimer.Tracker.constructor | components/dashboard/project-timer.tsx:12-18 | The tracker starts with no project, no title, no start time, 0 elapsed and nothing pending. |
| ProjectTimer.Tracker.SelectProject | components/dashboard/project-timer.tsx:89 | The chosen project is recorded. |
| ProjectTimer.Tracker.SetTitle | components/dashboard/project-timer.tsx:107 | The title holds what was typed. |
| ProjectTimer.Tracker.Tick | components/dashboard/project-timer.tsx:28-36 | While the start time is set and not 0, a tick sets `elapsed` to the whole seconds since the start; otherwise nothing changes. |
| ProjectTimer.Tracker.HandleStart | components/dashboard/project-timer.tsx:38-40 | Without a project it alerts and changes no state; otherwise a request is pending. |
| ProjectTimer.Tracker.FinishStart | components/dashboard/project-timer.tsx:42-46 | Nothing is pending any more; on success the clock starts at `now` with 0 elapsed, on failure it is unchanged. |
| ProjectTimer.Tracker.HandleStop | components/dashboard/project-timer.tsx:49-52 | Without a project, or (checked second) with a blank title, it alerts and changes no state; otherwise a request is pending. |
| ProjectTimer.Tracker.FinishStop | components/dashboard/project-timer.tsx:54-59 | Nothing is pending any more; on success the start time is null, elapsed 0 and the title empty, on failure they are unchanged. |
| ProjectTimer.ButtonsExclusive | components/dashboard/project-timer.tsx:115-118 | Start and Stop are never enabled together, and neither is while a request is pending. |
| ProjectsPage.FormatTimeThenParse | app/admin/projects/page.tsx:108-112 | `formatTime(n)` for n >= 0 is the hours then the minutes, 0..59, and parses back to n - n % 60. |
| ProjectsPage.ClampPage | app/admin/projects/page.tsx:203-205 | With at least one page the result is in [1, totalPages]; a page in range is kept; below 1 gives 1; above the last gives the last. |
| ProjectsPage.ClampPageIdempotent | app/admin/projects/page.tsx:203-205 | Clamping twice is clamping once. |
| ProjectsPage.Toggle | app/admin/projects/page.tsx:195 | A present tag is removed, every copy, the rest keeping their order and their number of copies; an absent tag is appended at the end. |
| ProjectsPage.ToggleTwiceAbsent | app/admin/projects/page.tsx:195 | Toggling an absent tag twice restores the list exactly. |
| ProjectsPage.ToggleTwicePresent | app/admin/projects/page.tsx:195 | Toggling a present tag twice moves it, as one copy, to the end. |
| ProjectsPage.WithoutProject | app/admin/projects/page.tsx:187 | Exactly the projects whose `_id` matches are removed; the others keep their order and their number of copies. |
| ProjectsPage.ValidateProjectName | app/admin/projects/page.tsx:134-135 | A missing or blank name gives "Project name is required"; otherwise the trimmed, non-empty name. |
| ProjectsPage.StoredPaginationAsWritten | app/admin/projects/page.tsx:86-95 | What `fetchProjects` stores as the pager is null exactly when the fetch failed. |
| ProjectsPage.FailedFetchStoresNull | app/admin/projects/page.tsx:86-95 | After any failed fetch the stored pager is null. |
| ProjectsPage.PaginationAfterFetch | app/admin/projects/page.tsx:86-95 | The server's pager after a successful fetch, the current one after a failed one. |
| ProjectsPage.Page.constructor | app/admin/projects/page.tsx:48-76 | The page starts with no projects, pager (1, 1, 0, 10), no tags, no filter tags and no delete pending. |
| ProjectsPage.Page.FetchProjects | app/admin/projects/page.tsx:86-95 | The result's projects are stored, with the pager from `PaginationAfterFetch`. |
| ProjectsPage.Page.GoToPage | app/admin/projects/page.tsx:203-207 | The clamped page becomes the current page; the rest of the pager is kept. |
| ProjectsPage.Page.ToggleTag | app/admin/projects/page.tsx:194-196 | The form's tags are toggled. |
| ProjectsPage.Page.ToggleFilterTag | app/admin/projects/page.tsx:198-201 | The filter tags are toggled and the pager returns to page 1. |
| ProjectsPage.Page.ConfirmDeleteProject | app/admin/projects/page.tsx:180-183 | The project is remembered and the dialog opens. |
| ProjectsPage.Page.HandleDeleteConfirmed | app/admin/projects/page.tsx:185-190 | With a project to delete, the projects with its `_id` are removed and it is forgotten; the dialog closes. |
| ProjectActions.BuildParams | actions/projectActions.ts:15-19 | page and limit are present iff given and non-zero; search iff given and non-empty; tags iff a non-empty list, as its elements joined with ","; no options gives an empty map. |
| ProjectActions.TagsParamRoundTrip | actions/projectActions.ts:19 | Splitting the `tags` parameter at the commas gives the tags back when no tag holds a comma. |
| ProjectActions.ProjectsResultOf | actions/projectActions.ts:29-41 | Success carries the reply's projects and pagination; failure is `success=false`, no projects, null pagination and the server's message or "Failed to fetch projects". |
| ProjectActions.SaveResultOf | actions/projectActions.ts:60-65 | Success carries the saved project; failure carries the server's message or "Failed to create project" / "Failed to update project". |
| SignUp.Validate | actions/signUpAction.ts:13-20 | A missing or empty field gives "All fields are required", before the password check; then differing passwords give "Passwords do not match"; otherwise the request holds the name, e-mail and password. |
| SignUp.SignUpAction | actions/signUpAction.ts:6-41 | A failed check is the result; otherwise success follows the server, with "Account created successfully" or "Signup failed" when the server sends no message. |
| SignUp.ChecksPrecedeRequest | actions/signUpAction.ts:13-24 | A failed check returns before the request: the server's answer cannot change the result. |
| SignUp.MissingFieldFirst | actions/signUpAction.ts:13-20 | A missing field is reported even when the passwords also differ. |
| SignUp.SuccessNeedsValidForm | actions/signUpAction.ts:13-33 | Only a complete form with matching passwords and an accepting server succeeds. |

## Left out

- HTTP: the axios calls of `getProjects`, `createProjectApi`, `updateProjectApi`, `startTrackingApi`, `stopTrackingApi`, `getProjectHistoryApi` and the sign-up request. They are foreign I/O; their outcome is an input (`Reply`, `SaveReply`, `SignUpReply`, the `success` flags).
- The `token` from `localStorage` and the `Authorization` header: session storage outside the core.
- `setInterval`/`clearInterval` in the project timer: a tick is the method `Tick(now)`; `Date.now()` is a parameter, and so is the routine id it generates. The model does not assume ids are unique, because the code does not ensure it.
- The history list of the project timer (`loadHistory`, `getProjectNameById`, the last-five view) and the project list it loads: display data fetched from the server.
- The rest of `handleSaveProject`: the payload (`Number(amount)` is floating-point parsing, `createdAt` is a `Date`), the create/update branch and the toast messages. Only the name check is modelled.
- `openNewProjectSheet`, `openEditProjectSheet` and the sheet and loading flags of the projects page: form plumbing.
- The search box and date filters of the projects page, the refetch each state change triggers through `useEffect`, and the explicit `fetchProjects(pagination.page)` that `handleDeleteConfirmed` makes after a delete (app/admin/projects/page.tsx:191): the server's reply is not modelled, so the refetched list is not either.
- JSX rendering, recharts and layout.
- React's asynchronous state updates: each handler's updates are applied at once, in order. The project timer's `await` is the seam between a handler and its continuation. Interleavings of several handlers in flight are not modelled.
- Numbers are unbounded integers. Fractional seconds and `NaN`, exponent rendering at 1e21 and beyond, and precision loss beyond 2^53 are not modelled.
- A `null` element inside the chart's `routines` array (`routine?.name`) is not modelled; only a missing array is.
- `TimeConverter.DurationSeconds`: `parseInt` is modelled in radix 10, so a `0x` or `0X` prefix, after optional white space and a `+` or `-` sign, is not read as hexadecimal. A text like `"0xA"`, `"0XA"`, `"+0xA"` or `" \t0xA"` has the single match `0`, so the fallback runs. There the code returns 600 (ten minutes) where this model returns 0. For `"-0xA"` the code returns -600, because `parseInt` reads -10.
- TimeConverter.ParseDurationToSeconds: its "never negative" ensures holds for the radix-10 `parseInt` only; the code returns -600 for `"-0xA"`.
- TimeConverter.DurationIsTokenSum: the fallback is inert only for the radix-10 `parseInt`; with a hexadecimal prefix the code's fallback can change the result, as above.
- `SignUp.SignUpAction`: the `user` field of the success result is the server's data and is not modelled.

## Findings

| source | as written | input that shows it | evidently intended | confidence | as-written member | corrected member |
|---|---|---|---|---|---|---|
| app/admin/projects/page.tsx:86-95 | `fetchProjects` stores the `pagination` of the `getProjects` result unchecked, and `getProjects` returns `pagination: null` when the call fails (actions/projectActions.ts:39); every later render reads `pagination.page` in the effect's dependency list (line 106) and `pagination.totalPages` (line 321), which throws on `null` | any failed fetch, e.g. the server answering with an error: `Failed(None)` | keep the current pager when the fetch fails | high, not executed | ProjectsPage.StoredPaginationAsWritten, ProjectsPage.FailedFetchStoresNull | ProjectsPage.PaginationAfterFetch, ProjectsPage.Page.FetchProjects |
