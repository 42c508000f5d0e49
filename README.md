# fiwa-cli core, modelled in Dafny

fiwa-cli is a terminal finance-tracking application. This project models
two parts of it and proves properties of each.

- **The persistence layer.** `SQLLiteHandler` keeps users, login sessions,
  projects, user-project memberships and labels in SQLite. It enforces the
  domain rules: required fields, unique emails, one session per user, a
  30-minute session expiry, a per-user project quota, project hashes,
  label names unique within a project, and soft or hard label deletion.
- **The calendar arithmetic.** `TimeClass` computes the week, month and year
  around a day, and the week or month picked by number. Two calendar
  widgets build month grids and move between months.

The model also covers the small rules embedded in screens:

- the label page's status cycle, its captions and how it saves pending changes;
- the project forms' validation, the comma-separated currency list, and the
  pre-fill shown when a project is modified;
- the application state derived from the session at start.

Modules and files:

| file | module | models |
|---|---|---|
| `wrappers.dfy` | `Wrappers` | `Option` and `Result` |
| `dates.dfy` | `Dates` | proleptic Gregorian dates as Python's `datetime.date` counts them (`toordinal`, `weekday`, `isocalendar`); ISO 8601 week numbering proved equal to Python's algorithm |
| `compute_time.py` → `compute_time.dfy` | `ComputeTime` | `TimeClass` (class with the computed fields), `cmp_week_by_number`, `cmp_month_by_number` and the `get_*` wrappers |
| `calendar_display.dfy` | `CalendarDisplay` | `CalendarWidget`: the month grid and month navigation |
| `widget_calendar.dfy` | `WidgetCalendar` | `Calendar`: day buttons, month navigation, day selection |
| `seqs.dfy` | `Seqs` | the SQL the handler issues, as sequence operations: `WHERE` as a filter, the first row of a `SELECT`, uniqueness as a pairwise relation, and `ORDER BY name` as code-point order |
| `store.dfy` | `Store` | table rows, request dictionaries, errors, and table constraints |
| `handler.dfy` | `Handler` | `SQLLiteHandler` as a class over the five tables |
| `label_page.dfy` | `LabelPage` | the label management screen |
| `py_text.dfy` | `PyText` | `str.strip`, `str.upper`, `str.split`, `str.join` |
| `project_forms.dfy` | `ProjectForms` | the new-project and modify-project forms |
| `app_state.dfy` | `AppState` | `MyApp.__init__`'s state derivation |

Conventions of the model:

- **Opaque values.**
  - SHA-256 is a function value, `sha256: string -> string`, fixed when the handler is built.
  - `uuid4()` results and the current time are method parameters.
  - Session timestamps are integers in microseconds; the timeout is `30 * 60 * 1000000`, exceeded strictly.
- **Python values.** A dictionary value that may be `None` or text is `Val = NoneVal | Str(s)`. `f"{v}"` of `None` is the text `"None"`, and `v or ''` is `OrEmpty`. A dictionary key that may be absent is an `Option`.
- **Table ids.** Each table has a next-id counter standing for `lastrowid`.
- **Assumed schema.** The schema file is not part of this model, so these constraints are assumptions:
  - UNIQUE on users' email, checked before username;
  - UNIQUE on users' username;
  - UNIQUE on projects' `project_hash`;
  - UNIQUE on labels' `(project_id, name)`.

  Foreign keys are not enforced, which is SQLite's default. The handler's `Valid()` states these constraints together with fresh next ids, and every operation preserves it.

## Model

| member | source | states |
|---|---|---|
| Handler.FirstMissing | functions/handler_sqllite.py:115-118 | the first required key that is missing or empty, in the order checked; `None` exactly when every key is present and non-empty |
| Handler.CheckRequired | functions/handler_sqllite.py:115-118 | the loop over the required keys stops at exactly the key `FirstMissing` names, and finds none when every key is present and non-empty |
| Handler.UserCreateError | functions/handler_sqllite.py:115-165 | no error iff all five required fields are present and non-empty and neither the email nor the username is taken; a missing field names one of the five keys; a duplicate email raises "Email already exists" before the username is considered |
| Handler.NewUserDefaults | functions/handler_sqllite.py:127-136 | a user created without the optional keys gets max_projects 3, is_superuser false, scope "user:write", activated true, and the salted password hash |
| Handler.SQLLiteHandler.constructor | functions/handler_sqllite.py:11-16 | an empty database with the default password salt |
| Handler.SQLLiteHandler.SetPwSalt | functions/handler_sqllite.py:21-22 | only the salt changes |
| Handler.SQLLiteHandler.UserCreate | functions/handler_sqllite.py:94-168 | fails exactly when `UserCreateError` reports an error, and then changes nothing; otherwise appends one user row with the defaults and returns its id; other tables unchanged |
| Handler.AppendUserKeepsTables | functions/handler_sqllite.py:139-165 | a user row with the next id and an email and username nobody has keeps users unique and every session and membership pointing at an existing user |
| Handler.SQLLiteHandler.UserLogin | functions/handler_sqllite.py:170-229 | no match (an activated user by username or email whose hash matches) gives None with sessions unchanged; a match replaces that user's sessions with one fresh session (type "local_login") and returns it |
| Store.ReplaceSessionSpec | functions/handler_sqllite.py:201-219 | after a login the new session is the only one of its user, every other user's sessions are kept, and session ids stay unique |
| Handler.ReplaceSessionKeepsTable | functions/handler_sqllite.py:208-219 | a login's delete-then-insert, with the next session id, keeps session ids unique and every session pointing at an existing user |
| Handler.SQLLiteHandler.UserLogout | functions/handler_sqllite.py:231-252 | removes exactly the sessions with that uuid and always reports success |
| Handler.SQLLiteHandler.GetUserSessions | functions/handler_sqllite.py:254-307 | zero or several session rows give nothing and change nothing; a single row more than 30 minutes old is logged out (table empty) and gives nothing; otherwise is_logged_in with the session, its user's info and their projects |
| Handler.UserInfoIn | functions/handler_sqllite.py:309-339 | some info iff the user exists, and then it is that user's row without the password hash |
| Handler.SQLLiteHandler.UserGetInfo | functions/handler_sqllite.py:309-339 | the same over the handler's users table |
| Handler.MaxProjectsIn | functions/handler_sqllite.py:341-360 | the user's max_projects, or 3 for an unknown user |
| Handler.MaxProjectsOfUser | functions/handler_sqllite.py:341-360 | with unique user ids, the limit read is that user's own |
| Handler.SQLLiteHandler.GetMaxProjects | functions/handler_sqllite.py:341-360 | the user's limit, or 3 when there is no such user |
| Handler.ProjectsOf | functions/handler_sqllite.py:362-395 | every row of the join comes from a membership of the user and an existing project with that id, name and hash |
| Handler.ProjectsOfCount | functions/handler_sqllite.py:362-395 | with unique project ids and memberships naming existing projects, the join has one row per membership of the user |
| Handler.SQLLiteHandler.ProjectGetInfo | functions/handler_sqllite.py:362-395 | as many rows as the user has memberships; row k is the k-th membership joined with the project it names: that project's id, name, description, creation time, currencies and hash, plus the membership's primary flag and permission model |
| Handler.ProjectsOfJoin | functions/handler_sqllite.py:368-374 | with unique project ids and every membership naming a project, the join has one row per membership of the user, and row k carries the k-th such membership's project and its primary flag and permission model |
| Handler.ProjectCreateError | functions/handler_sqllite.py:427-468 | the errors in the order raised: empty name, unknown user, membership count at or above the user's limit, and then a hash already stored |
| Handler.NewProjectHash | functions/handler_sqllite.py:431-442 | a new project's hash digests its stored name, description and main currency, except that a description given as None is stored as NULL but digested as "None" |
| Handler.SQLLiteHandler.ProjectCreate | functions/handler_sqllite.py:409-511 | fails exactly when `ProjectCreateError` does, changing nothing; otherwise appends one project and one membership with permissions "000000", primary iff the user had no project before |
| Handler.SQLLiteHandler.InsertProject | functions/handler_sqllite.py:470-497 | the two inserts keep every table constraint |
| Handler.PatchProjectSpec | functions/handler_sqllite.py:547-588 | a patch keeps the id and creation time and every column whose key is absent; the name changes only to a truthy given name; without name, description or currency_main keys the hash stays; a patch of text values yields the hash of the stored columns |
| Handler.PatchProjectEmptyName | functions/handler_sqllite.py:550-580 | a present but empty name is not written, yet the new hash digests the empty name, so it differs from the stored columns' hash input |
| Handler.SQLLiteHandler.ProjectUpdate | functions/handler_sqllite.py:513-611 | fails exactly when ProjectUpdateError names an error, and returns that error: falsy id, unknown project, nothing to write, hash equal to another project's, in that order; errors change nothing; success replaces that one row with the patched project |
| Handler.ProjectUpdateError | functions/handler_sqllite.py:532-608 | the update's error, tried in order: a falsy project id, an unknown project, a patch with no field to write; with all three passing an error exactly when the patched hash equals another project's, and then it is SimilarProject |
| Handler.UpdateProjectKeepsTables | functions/handler_sqllite.py:594-608 | rewriting one project row under its id with a hash no other project has keeps ids and hashes unique and leaves every membership pointing at an existing project |
| Handler.SQLLiteHandler.ProjectAddUser | functions/handler_sqllite.py:613-672 | fails exactly when ProjectAddUserError names an error and returns that error: unknown project, unknown user, existing membership, in that order, without change; otherwise exactly one membership with the given permissions and primary flag is appended |
| Handler.ProjectAddUserError | functions/handler_sqllite.py:628-656 | an unknown project is reported first, then an unknown user; with both present an error exactly when the user is already a member, and then it names that user and project |
| Handler.AppendMembershipKeepsTable | functions/handler_sqllite.py:657-666 | a membership with the next id, of an existing user in an existing project they are not yet in, keeps memberships unique per user and project |
| Store.InsertByNameSorted | functions/handler_sqllite.py:688-690 | inserting a label into a list sorted by name keeps it sorted |
| Handler.SQLLiteHandler.LabelGetAll | functions/handler_sqllite.py:674-717 | the result is sorted by name and is a permutation of the project's labels; a label is in it iff it belongs to the project |
| Store.SortProjectLabels | functions/handler_sqllite.py:684-691 | `WHERE project_id = ? ORDER BY name`: the result is sorted by name and is a permutation of the project's labels |
| Handler.SQLLiteHandler.LabelGetAllDetermined | functions/handler_sqllite.py:674-717 | with names unique in a project, exactly one list is sorted by name and holds the project's labels |
| Handler.NewLabelDefaults | functions/handler_sqllite.py:742-747 | a label created from a name alone has status 2, type 1, an empty description and an empty composite |
| Handler.SQLLiteHandler.LabelCreate | functions/handler_sqllite.py:719-784 | succeeds iff the name is non-empty and not used in the same project (another project's label may share it), appending one label; otherwise changes nothing |
| Handler.PatchLabelSpec | functions/handler_sqllite.py:817-842 | a patch never changes the label's id, project or creation time; the name changes only to a truthy one; a patch that writes nothing is the identity |
| Handler.SQLLiteHandler.LabelUpdate | functions/handler_sqllite.py:786-865 | errors: unknown label, nothing to write, name used by another label of the project; errors change nothing; success replaces that one label |
| Handler.UpdateLabelKeepsTable | functions/handler_sqllite.py:848-862 | rewriting one label under its id with a name no other label of its project has keeps label ids and (project, name) pairs unique |
| Handler.SoftDeleted | functions/handler_sqllite.py:885 | the soft delete keeps the table's length |
| Handler.SoftDeleteSpec | functions/handler_sqllite.py:883-885 | a soft delete sets only that label's status to 0; every other field and every other label stay unchanged |
| Handler.HardDeleteSpec | functions/handler_sqllite.py:880-882 | a hard delete removes that label and keeps every other; with unique ids an existing label loses exactly one row; an absent id changes nothing |
| Handler.SQLLiteHandler.LabelDelete | functions/handler_sqllite.py:867-893 | hard or soft delete as above, without checking that the label exists, always reporting success |
| Store.HashInputInjective | functions/handler_sqllite.py:440-441 | the "name\|description\|currency" text determines its three parts when none contains "\|" |
| ComputeTime.MakeDate | functions/compute_time.py:335 | `datetime.date(y, m, d)` exists iff the month is 1..12 and the day exists in that month |
| ComputeTime.MondayOnOrBefore | functions/compute_time.py:260 | `day - weekday` is a Monday at most six days before the day |
| ComputeTime.MonthEndIsLastDay | functions/compute_time.py:294-296 | the 28th plus four days, stepped back by its own day number, is the month's last day (29 February in leap years) |
| ComputeTime.TimeClass.Run | functions/compute_time.py:93-108 | after `run` the week, month and year fields all hold their computed values |
| ComputeTime.TimeClass.CmpWeek | functions/compute_time.py:240-261 | week_nb is the ISO 8601 week number; week_beg is the Monday on or before the day; week_end is six days later; other fields unchanged |
| ComputeTime.WeekOfDay | functions/compute_time.py:259-261 | the week number is the ISO 8601 week of the day in its ISO year, between 1 and 53; the week begins on a Monday at most six days before the day and ends six days later |
| ComputeTime.TimeClass.CmpMonth | functions/compute_time.py:263-296 | month_beg is the 1st and month_end the last day of the day's month; other fields unchanged |
| ComputeTime.TimeClass.CmpYear | functions/compute_time.py:298-317 | year_beg is 1 January and year_end 31 December of the day's year; other fields unchanged |
| Dates.IsoCalendarIsIso8601 | functions/compute_time.py:259 | Python's `isocalendar` numbering is ISO 8601's: the week whose Thursday is in the year, counted from the week holding the year's first Thursday |
| Dates.IsoWeek53Example | tests/test_compute_time.py:243-247 | 31 December 2020 is in ISO week 53 |
| ComputeTime.CmpWeekByNumberSpec | functions/compute_time.py:335-345 | week_beg is a Monday `7 * (week - 1)` days after the Monday on or before 1 January; week_end is the Sunday after it; year and week_nb are the inputs |
| ComputeTime.CmpWeekByNumberConsecutive | functions/compute_time.py:335-345 | week `w + 1` begins the day after week `w` ends |
| ComputeTime.CmpWeekByNumberExample | functions/compute_time.py:331-335 | week 10 of 2024 runs from 4 to 10 March |
| ComputeTime.GetWeekByNumberShift | functions/compute_time.py:382 | shifting by `s` weeks is week `w + s`, with both boundaries moved `7 * s` days |
| ComputeTime.CmpWeekByNumberNotIso | functions/compute_time.py:335-345 | as written, week 1 of 2021 begins on 28 December 2020, a day of ISO week 53 of 2020 |
| ComputeTime.IsoWeekByNumberIsIso | functions/compute_time.py:319-345 | the corrected week-by-number returns the Monday and Sunday of that ISO week, and the day k days after its Monday (k from 0 to 6) is day k + 1 of that ISO week |
| ComputeTime.CmpMonthByNumberSpec | functions/compute_time.py:423-442 | defined iff `date(year, month, s)` exists and, for `s >= 15`, day `s` also exists in the previous month; runs from day `s` of one month to day `s` of the next: previous month to this one for `s >= 15`, this month to the next otherwise; month_nb is the input |
| ComputeTime.CmpMonthByNumberLate | functions/compute_time.py:433-437 | a start day of 15 or more that exists in the month runs from that day of the previous month to that day of this month, and fails exactly when the previous month lacks that day |
| ComputeTime.CmpMonthByNumberEarly | functions/compute_time.py:438-442 | a start day below 15 always succeeds and runs from that day of this month to that day of the next |
| ComputeTime.CmpMonthByNumberChains | functions/compute_time.py:423-442 | with a fixed start day each month's period ends where the next begins |
| ComputeTime.CmpMonthByNumberMarch30 | functions/compute_time.py:433-437 | start day 30 in March raises, because February has no 30th; start day 15 gives 15 February to 15 March |
| ComputeTime.GetMonthByNumberNoWrap | functions/compute_time.py:484 | `get_month_by_number` is `cmp_month_by_number(month + shift)`, and a month outside 1..12 is an error, never a wrap into another year |
| CalendarDisplay.MonthAfterShift | components/calendar_display.py:277-292 | the new month is in 1..12 and the year moves by at most one; the month is `m + delta` exactly when that is in 1..12 |
| CalendarDisplay.MonthAfterShiftSteps | components/calendar_display.py:282-290 | +1 is the next month (December to January of the next year), -1 the previous, and each undoes the other |
| CalendarDisplay.FirstColumn | components/calendar_display.py:192-195 | the first day's column is in 0..6 |
| CalendarDisplay.MonthEnds | components/calendar_display.py:197-214 | the two one-day steps back find the month's last day and the previous month's last day |
| CalendarDisplay.GridLayout | components/calendar_display.py:183-260 | leading cells are the previous month's last `first_weekday` days in order; then days 1..days_in_month with only today marked; then days 1.. of the next month; 35 or 42 cells |
| CalendarDisplay.GridIsConsecutiveDays | components/calendar_display.py:183-260 | read in order, the grid is consecutive days starting on a week's first day (Monday or Sunday) and containing the whole month |
| CalendarDisplay.CalendarWidget.ChangeMonth | components/calendar_display.py:277-292 | the displayed month moves by the shift with year carry and is held as its 1st |
| WidgetCalendar.DayAt | widgets/calendar.py:126-128 | a `monthcalendar` entry is a day number or 0, non-zero exactly inside the month |
| WidgetCalendar.DayButtonsLayout | widgets/calendar.py:122-151 | whole weeks cover the month with less than a week to spare; day `d` appears exactly once, after the 1st's weekday; only the selected date is "selected", only today "today"; other cells are disabled placeholders |
| WidgetCalendar.Calendar.GetDayButtons | widgets/calendar.py:122-151 | the nested week/day loops produce exactly that layout |
| WidgetCalendar.Calendar.ChangeMonth | widgets/calendar.py:169-190 | the month moves with year carry to its 1st; the selection stays if it lies in the new month, otherwise it becomes the 1st |
| WidgetCalendar.Calendar.PressDay | widgets/calendar.py:161-167 | pressing day `d` selects that day of the month shown and leaves the month unchanged |
| LabelPage.CaptionsDistinguishCodes | screens/settings_label_page.py:202-218 | exactly 0, 1 and 2 have captions, "Mark for Deletion"/"Deactivated"/"Active" and "Action"/"Account"/"Label"; any other code is "Unknown"; no two codes share a caption |
| LabelPage.NextStatusCycle | screens/settings_label_page.py:285-293 | a click always lands in 0..2; an unknown status becomes 2; from 0..2 it takes exactly three clicks to return |
| LabelPage.RecordStatus | screens/settings_label_page.py:299-301 | the label's pending entry gets the new status; entries of other labels are kept |
| LabelPage.RecordStatusKeys | screens/settings_label_page.py:299-301 | pending changes stay one entry per label; an entry is added only for a label without one |
| LabelPage.LabelManagementForm.ToggleLabelStatus | screens/settings_label_page.py:278-308 | an id not shown changes nothing; otherwise only the first label with that id moves one step in the cycle, and its pending changes record the new status |
| LabelPage.LabelManagementForm.SaveAllChanges | screens/settings_label_page.py:310-361 | with project id <= 0 nothing happens; otherwise the labels table afterwards is every new label created in order (CreateAll) and then every pending change applied in order (UpdateAll); the change count is the number of successful creates plus successful updates; changes plus errors equal the number sent; users, sessions, projects and memberships are unchanged |
| LabelPage.CreateLabels | screens/settings_label_page.py:324-330 | each new label is sent to op_label_create in order; the tables afterwards are CreateAll's, the count is the number of successful creates, and count plus errors is the number sent |
| LabelPage.UpdateLabels | screens/settings_label_page.py:333-339 | each pending change is sent to op_label_update in order; the labels table afterwards is UpdateAll's, the count is the number of successful updates, count plus errors is the number sent, and no label id is used up |
| LabelPage.CreateAllAppends | screens/settings_label_page.py:324-330 | a run of creates only appends: the old rows stay in front, one row per successful create is added, all in the page's project, and the next id moves by the same count |
| LabelPage.UpdateAllKeepsRows | screens/settings_label_page.py:333-339 | a run of updates keeps the number of rows and each row's id and project; an update that fails leaves the table as it was |
| LabelPage.CountOkBound | screens/settings_label_page.py:319-339 | the change count never exceeds the number of operations sent |
| PyText.Strip | screens/settings_project_new.py:197-200 | the result is a slice s[a..b] of the input with only whitespace before a and from b on, and no whitespace at either end; empty exactly when the input is all whitespace |
| PyText.SplitJoin | screens/settings_project_new.py:212 | splitting joined parts gives the parts back when none contains the separator |
| ProjectForms.ParseCurrencyList | screens/settings_project_new.py:210-212 | the codes are the non-blank comma pieces of the stripped text, each stripped and upper-cased, in order (one code per non-blank piece, index by index); each is non-empty, upper-case, comma-free and has no whitespace at its ends |
| ProjectForms.CurrencyPrefill | screens/settings_project_modify.py:124-133 | a list that does not decode shows ""; a non-empty list of non-empty codes shows non-empty text |
| ProjectForms.PrefillRoundTrip | screens/settings_project_modify.py:131 | the pre-fill of a list of well-formed codes parses back to exactly that list |
| ProjectForms.ParsePrefillStable | screens/settings_project_modify.py:195-197 | a parsed list survives being shown and parsed again |
| ProjectForms.ReadFields | screens/settings_project_new.py:197-223 | a blank name is refused first, then a main currency whose stripped length is not 3; on success the name is stripped and non-empty, the currency three upper-case characters, the description None iff blank |
| ProjectForms.CreateProject | screens/settings_project_new.py:172-226 | a logged-in user whose count is at or above the limit is refused before any field is read; otherwise the shared checks; the posted data carries the checked fields and a hash of the name and creation time; the count is a parameter (see Findings for what the form passes) |
| ProjectForms.QuotaBanner | screens/settings_project_new.py:132-150 | an error box iff current >= max, a warning box iff current is max - 1, an information box otherwise |
| ProjectForms.QuotaBannerAgrees | screens/settings_project_new.py:121-195 | more projects never give a milder banner, and for a logged-in user the error box shows exactly when creating is refused |
| ProjectForms.UpdateProjectData | screens/settings_project_modify.py:174-205 | a falsy project id or user id <= 0 is refused first; then the shared checks; a patch always carries the id and a non-empty name, so the handler finds something to write |
| ProjectForms.UpdatePatchApplies | screens/settings_project_modify.py:199-205 | the handler writes the form's name, currencies and description (empty text for none); the hash is the stored columns' hash when a description was given, otherwise it digests "None" |
| ProjectForms.UpdateProject | screens/settings_project_modify.py:174-217 | a refused form leaves the database alone; an accepted one is saved exactly when the project exists and its patched hash is no other project's; a failure is a missing project or a clashing hash and changes nothing; a success replaces that one project row with the patched project; users, sessions, memberships and labels are unchanged |
| AppState.PrimaryProjectId | main.py:73-74 | the id of the first project marked primary, or the first project's id when none is; always one of the ids |
| AppState.AppStateShape | main.py:56-82 | ids and names are equally long and in the handler's order; the selected id is one of them; without a session: "Guest", -1, "No session", None, not logged in, `[0]`, `["No Projects"]`, 0 |
| AppState.PlaceholderCountedAsProject | screens/settings_project_new.py:117-120 | as written: for a logged-in user without projects, the form's count `len(project_ids)` is 1 because of the `[0]` placeholder; with a limit of 1 the form shows the error box and refuses, while the handler's quota check does not refuse that user |
| AppState.ProjectCountAgreesWithHandler | screens/settings_project_new.py:174-185 | corrected: counting the user's real projects (the placeholder counts as none), the count equals the number of the user's memberships, and the form refuses for the limit, and shows the error box, exactly when the handler's quota check refuses |
| AppState.DeriveAppState | main.py:56-82 | the entry-by-entry assignments and the loop over projects compute exactly that state |
| AppState.CollectProjects | main.py:66-74 | the ids and names come out in the handler's order, one per project, and the primary id is that of the first project marked primary, or none |
| AppState.MyApp.constructor | main.py:45-82 | with no single live session the state is the guest state; otherwise it carries the session, the user's id and username as the handler reports them, and the user's projects as the handler lists them; an expired single session is deleted, and all other tables are unchanged |
| Seqs.Filter | functions/handler_sqllite.py:686-690 | a `WHERE` keeps exactly the rows it selects, never more rows than the table has |
| Seqs.IndexOf | functions/handler_sqllite.py:808-811 | the first row the condition selects, or none exactly when no row qualifies |
| Seqs.NameLeTotal | functions/handler_sqllite.py:690 | any two names are ordered one way or the other by `ORDER BY name` |
| Seqs.NameLeTrans | functions/handler_sqllite.py:690 | the order on names is transitive |
| Seqs.NameLeAntisymmetric | functions/handler_sqllite.py:690 | two names ordered both ways are equal |
| Store.FindUser | functions/handler_sqllite.py:639-644 | the position of a user with that id, and none exactly when no such user exists |
| Store.FindProject | functions/handler_sqllite.py:537-544 | the position of a project with that id, and none exactly when no such project exists |
| Store.FindLabel | functions/handler_sqllite.py:806-813 | the position of a label with that id, and none exactly when no such label exists |
| Store.InsertByName | functions/handler_sqllite.py:688-690 | inserting a label into the ordered list adds exactly that label, as a multiset |
| Store.SplitAtBar | functions/handler_sqllite.py:440-441 | two texts joined with "\|" split back uniquely when the first parts have no "\|" |
| Handler.OneProjectWithId | functions/handler_sqllite.py:537-544 | with unique project ids, an existing id selects exactly one row |
| Handler.HardDeleteOne | functions/handler_sqllite.py:882 | with unique label ids, deleting an existing id removes exactly one row |
| Handler.SortedByNameUnique | functions/handler_sqllite.py:686-690 | two orderings by name of the same labels are equal when names are unique |
| Handler.AppendProjectKeepsTables | functions/handler_sqllite.py:470-500 | a project with a fresh id and a new hash, plus its membership of an existing user, keep the table constraints |
| Dates.IsoCalendarExactly | functions/compute_time.py:259 | a day lies in ISO week `w` of ISO year `y` iff `isocalendar` reports that year and week |
| Dates.IsoWeekUnique | functions/compute_time.py:259 | a day lies in only one ISO week |
| Dates.IsoNextYearExample | functions/compute_time.py:259 | 30 December 2024 is in week 1 of ISO year 2025 |
| Dates.WeekdayAfter | functions/compute_time.py:260-261 | adding `n` days moves the weekday by `n` modulo 7 |
| ComputeTime.ReplaceDay | functions/compute_time.py:435 | `replace(day=k)` succeeds iff day `k` exists in the month, and then only the day changes |
| ComputeTime.TimeClass.constructor | functions/compute_time.py:65-91 | a time object for a day has its week, month and year computed |
| ComputeTime.IsoWeekByNumberOrdinals | functions/compute_time.py:342-345 | the corrected week begins `7 * (week - 1)` days after the Monday of ISO week 1 and ends six days later |
| CalendarDisplay.ShapeFacts | components/calendar_display.py:183-260 | every cell's caption is its day; cells are consecutive days; a cell is today iff it is today's date in the displayed month; it is marked other-month iff its month differs; the first column is Monday (or Sunday) and the 1st sits at the first weekday's column |
| CalendarDisplay.CalendarWidget.constructor | components/calendar_display.py:147-153 | opens on the given date, or today when none, displaying its month from the 1st |
| WidgetCalendar.Calendar.constructor | widgets/calendar.py:95-99 | opens on the given date, or today when none, with that date selected |
| LabelPage.LabelManagementForm.constructor | screens/settings_label_page.py:143-149 | the screen starts with the labels and nothing pending |
| PyText.Upper | screens/settings_project_new.py:199 | same length, no lower-case letter left, every other character unchanged and each lower-case letter moved to its capital |
| PyText.UpperIdempotent | screens/settings_project_new.py:199 | upper-casing twice is upper-casing once; text without lower-case letters is unchanged |
| PyText.StripTrimmed | screens/settings_project_new.py:197-200 | stripping text without whitespace at its ends gives it back |
| PyText.Split | screens/settings_project_new.py:212 | at least one piece, no piece containing the separator, and joining the pieces with it gives the text back |
| PyText.JoinEndsWithLast | screens/settings_project_modify.py:131 | joined text ends with the last part |
| ProjectForms.ParseParts | screens/settings_project_new.py:212 | the codes are the non-blank pieces, each stripped and upper-cased, in order: as many codes as non-blank pieces, code k from non-blank piece k; every code is well formed |

## Left out

- The SQLite connection lifecycle and SQL text are left out: `load`, `close`, `execute_query` and `initialize_database`. So are `set_path`, `set_db_salt` and the table-name prefix. The tables are sequences instead.
- JSON encoding of `composite` and `currency_list` is not modelled: the model stores them as lists, so a decode failure cannot happen in the handler. The pre-fill models it as an `Option`.
- `op_total_number_of_users`, `op_user_get_all_ids` and `op_get_current_user` are not modelled; they are plain reads that no modelled rule depends on.
- Handler.HashPassword: the `None`-salt `ValueError` branch is not modelled, because the handler always passes its own salt.
- Exceptions other than the handler's `ValueError`s are not modelled: sqlite errors and the forms' `except Exception` branches.
- Timestamps are parameters. Session starts are integer microseconds, and creation times are opaque text.
- Day, month and holiday names (`cmp_day`, `cmp_holiday`, Babel, `holidays`) are locale data. `get_day`'s default to today is not modelled either.
- Dates range over all integer years; `MINYEAR`/`MAXYEAR` overflow is not modelled.
- The Textual UI is not modelled: widgets, CSS, notifications, screens and message posting.
- The calendar widgets' button ids are not modelled; a cell carries its date instead.
- PyText.Upper upper-cases ASCII letters only; Python's Unicode case mapping of other letters (which can change length, e.g. "ß") is not modelled.
- ProjectForms.CreateProject: `max_projects` is a parameter holding what `op_get_max_projects` returned. Failures of that call are not modelled.
- AppState.MyApp.constructor: the other `app_state` entries are not derived (focus day, week and month from today).
- `screens/base.py` is not part of this model. Its login glue selects the last project marked primary, not the first as `main.py` does.
- ComputeTime.GetWeekByNumberShift states the shift for the week's start and end ordinals; the `year` field stays the input year even when the shifted week lies in another year, as in the source.
- Handler.SQLLiteHandler.UserLogin: the login query at functions/handler_sqllite.py:189-193 has no ORDER BY and takes its first row. The model picks the earliest-inserted activated user that matches. Two activated users can match one identifier when one user's username equals the other's email and both share the password hash; SQLite's choice there is not pinned down, and the model's choice is one of the rows it may return.
- Handler.SQLLiteHandler.ProjectGetInfo: the join at functions/handler_sqllite.py:368-374 has no ORDER BY. The model lists the rows in membership-insertion order. That order fixes which primary project AppState.PrimaryProjectId takes first and the order of the state's project ids; SQLite may return them in another order.
- The schema constraints listed above are assumptions. The schema file is not part of this model.

Where the code and its documentation disagree, the model follows the code.
The `cmp_month_by_number` docstring shows start day 15 giving 15 March to
15 April, while the code steps the start back a month for any start day of
15 or more (15 February to 15 March); `CmpMonthByNumberMarch30` states
the latter. The `op_project_update` behaviour for an empty name
(`PatchProjectEmptyName`) is modelled as written.

## Findings

| source | as written | input that shows it | evidently intended | confidence | as-written member | corrected member |
|---|---|---|---|---|---|---|
| functions/compute_time.py:342-345 | week 1 begins on the Monday on or before 1 January, whatever weekday 1 January falls on | `cmp_week_by_number(2021, 1)` begins on 2020-12-28, which is in ISO week 53 of 2020 | the docstring promises ISO week numbers: week 1 is the week holding the year's first Thursday | not executed | ComputeTime.CmpWeekByNumberNotIso | ComputeTime.IsoWeekByNumberIsIso |
| screens/settings_project_new.py:119-120, 177-178 | the form counts projects as `len(app_state["project_ids"])`, and a user without projects has the placeholder list `[0]` (main.py:80) | a logged-in user with no project and max_projects 1: the form counts 1/1 and refuses, while `op_project_create` would accept (0 memberships, below 1) | the count of the user's real projects, which is what the handler checks | not executed | AppState.PlaceholderCountedAsProject | AppState.ProjectCountAgreesWithHandler |
