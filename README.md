# Daily reports: a verified model of the report and account logic

This project models the logic of a small daily-report web application. The application has two stores:

- a report store, which updates reports and aggregates them by month and year;
- an account store, which handles registration, login, logout and password reset.

It also models the computation in the components that derive views from those stores:

- the report list: merging the reports a user may see, then de-duplicating, sorting, grouping and expanding groups;
- the report form, with its three task lists;
- the report viewer, which edits a task in place;
- the activity feed;
- the monthly history, the sidebar summary and the stat cards;
- the department editor;
- the team directory.

## Modelling choices

**Stores and components with state are classes.** Their fields are what the source updates: `ReportStore.reports`, `AuthStore.user`, `AuthStore.users`, and the form's lists. Each method states the whole new state. Pure derivations are functions. Properties are stated as lemmas about those functions.

**Dates.** A report's `yyyy-MM-dd` string is a `CalendarDate` with a 0-based month. `startOfMonth`/`endOfMonth` and `startOfYear`/`endOfYear` are explicit day bounds, and lemmas relate them to month and year equality on valid dates. ISO timestamps (`createdAt`, `updatedAt`) are integers ordered like the instants they denote.

**Rounding.** `Math.round(p / w * 100)` is exact rounding half-up, `(200p + w) div 2w`.

**Calls the source makes outside this code.** These become parameters:
- bcrypt's salt, uuid, `crypto.randomUUID`, `Math.random` and the clock;
- whether `addReport` throws;
- the report lists that `getAllReports`, `getReportsByUserId` and `getSharedReports` return.

**bcrypt** is modelled as a constructor, `PasswordHash(secret, salt)`, with `Compare` accepting exactly the hashed password whatever the salt.

**JavaScript semantics are written out:**
- a `Map` keeps each key's first insertion position and the value of its last `set`;
- `Object.entries` lists canonical array-index keys first, in ascending numeric order;
- `encodeURIComponent`;
- `String.prototype.trim`, using the ECMAScript white-space set;
- the shallow object spread, which shares the task arrays; this sharing is modelled only between the viewer's own report objects.

**Behaviour worth knowing.**
- Yearly groups are shown in ascending year order; daily and monthly groups in the order they were created, newest first.
- The history's completion rate counts planned tasks in its denominator; the sidebar's does not.
- The sidebar shows `NaN%` (modelled as no value) when the month has no completed or pending task.

## Model

| member | source | states |
|---|---|---|
| ReportStore.ReportStore.UpdateReport | src/store/reportStore.ts:15-24 | The list keeps its length and order. Reports with another id are unchanged. Every report with the updated id becomes the updated report, with `updatedAt` set to the call's instant |
| ReportStore.ReplaceById | src/store/reportStore.ts:17-22 | The `map` of `updateReport`, position by position: same length; a matching id gives the stamped report, any other id keeps the old one |
| ReportStore.ReplaceAbsentIdIsNoop | src/store/reportStore.ts:17-22 | An id that no stored report carries leaves the collection equal to before |
| ReportStore.ReplaceKeepsIds | src/store/reportStore.ts:17-22 | Every position keeps its id |
| ReportStore.MonthlyReportSelectsMonth | src/store/reportStore.ts:27-35 | The monthly `reports` are, in stored order, exactly the reports with month `m` and year `y`, every copy counted. `totalReports` is their number |
| ReportStore.MonthlyTaskTotalsCountTasks | src/store/reportStore.ts:36-38 | The completed, pending and planned totals are the lengths of the concatenated task lists of the month's reports |
| ReportStore.MonthlyReportOf | src/store/reportStore.ts:26-41 | The body of `generateMonthlyReport`. It carries the requested month and year, and `totalReports` is the number of selected reports. A report is selected exactly when it is stored and dated in that month and year |
| ReportStore.YearlyReportOf | src/store/reportStore.ts:49-51 | There are 12 monthly entries, and entry `m` is the monthly report for `(m, year)` |
| ReportStore.YearlyTotalsAreMonthlySums | src/store/reportStore.ts:43-60 | Each yearly total (reports and the three task counts) is the sum of that total over the 12 monthly entries |
| ReportStore.ReportStore.GenerateMonthlyReport | src/store/reportStore.ts:26-41 | Returns the monthly report of the current state and changes nothing |
| ReportStore.ReportStore.GenerateYearlyReport | src/store/reportStore.ts:43-61 | The loop of twelve monthly calls builds exactly the yearly report of the current state |
| ReportStore.ReportStore.GenerateMonthlyReportTwice | src/store/reportStore.ts:26-41 | Two generations with no update in between are equal |
| AuthStore.FindByEmail | src/store/authStore.ts:43 | `find` by email. None exactly when no user has the email; otherwise the first position that has it |
| AuthStore.FindByEmailUnique | src/store/authStore.ts:70 | With unique emails, the lookup finds the one user holding the email |
| AuthStore.FindAppended | src/store/authStore.ts:91 | A user appended under an email nobody had is the one `find` returns for that email |
| AuthStore.CompareRecognisesPassword | src/store/authStore.ts:49 | A hash accepts the password it was made from and rejects every other |
| AuthStore.Public | src/store/authStore.ts:54-62 | The `User` built field by field from a stored user: every field except `passwordHash` |
| AuthStore.AuthStore.Login | src/store/authStore.ts:41-66 | Unknown email gives 'User not found'. A wrong password gives 'Invalid password'. Both leave `user` as it was. Otherwise `user` and the result are the stored user without its hash. `users` is never changed |
| AuthStore.AuthStore.Logout | src/store/authStore.ts:67 | `user` becomes null and `users` is unchanged |
| AuthStore.AuthStore.Register | src/store/authStore.ts:68-105 | A registered email gives 'Email already registered' and nothing changes. Otherwise the new record (fresh id, hashed password, avatar URL, creation instant) is appended and returned without its hash. Email uniqueness is preserved. `user` is not changed |
| AuthStore.AuthStore.ResetPassword | src/store/authStore.ts:106-127 | Unknown email gives 'User not found' and nothing changes. Otherwise the records with that email get the hash of the temporary password. Email uniqueness is preserved |
| AuthStore.AuthStore.UpdatePassword | src/store/authStore.ts:128-137 | Without checking anything, every record with the email gets the new hash. An unknown email changes nothing and raises nothing. Email uniqueness is preserved |
| AuthStore.RehashWhere | src/store/authStore.ts:121-123 | Same length. Records with the email get the hash. Every other field, and every other record, is unchanged |
| AuthStore.FindAfterRehash | src/store/authStore.ts:133-135 | Rewriting password hashes moves no email, so a later `find` by any email lands on the same position as before |
| AuthStore.RehashKeepsEmailsUnique | src/store/authStore.ts:121-123 | Rewriting hashes keeps the emails and so their uniqueness |
| AuthStore.AppendKeepsEmailsUnique | src/store/authStore.ts:70-92 | Appending a user whose email is absent keeps emails unique |
| AuthStore.RegisterThenLogin | src/store/authStore.ts:41-105 | After a successful registration, logging in with the same email and password returns the registered user and signs them in |
| AuthStore.UpdateThenLogin | src/store/authStore.ts:128-137 | After `updatePassword`, a registered email logs in with the new password; an unknown one still gives 'User not found' |
| AuthStore.EncodeUriComponent | src/store/authStore.ts:86 | Output characters are unreserved, `%`, or upper-case hex digits |
| AuthStore.PercentEncode | src/store/authStore.ts:86 | Three characters per byte: `%` followed by two upper-case hex digits |
| AuthStore.Utf8Bytes | src/store/authStore.ts:86 | One to four bytes, each below 256 |
| AuthStore.EncodeKeepsUnescaped | src/store/authStore.ts:86 | A name made only of unreserved characters is encoded as itself |
| AuthStore.EncodedNameStaysInParameter | src/store/authStore.ts:86 | The encoded name has no `&`, `=` or `#`, so it cannot end the `name` parameter of the avatar URL |
| AuthStore.AvatarUrl | src/store/authStore.ts:86 | The `ui-avatars.com` URL with the encoded name and `background=random` |
| AuthStore.NewStoredUser | src/store/authStore.ts:79-88 | The record `register` stores: the fresh id, the given name, email, role and department, the hash of the password, the avatar URL and the creation instant |
| ReportList.Merged | src/components/reports/ReportList.tsx:23-31 | No user gives no reports. A manager sees all reports followed by the shared ones; a member sees their own followed by the shared ones |
| ReportList.MapSet | src/components/reports/ReportList.tsx:34 | One `Map.set`: the new entry is present, there is at most one more entry, and every entry was already there or is the new one |
| ReportList.MapSetIds | src/components/reports/ReportList.tsx:34 | `Map.set` adds a key at the end only if the key is new |
| ReportList.MapSetValues | src/components/reports/ReportList.tsx:34 | With distinct keys, `set` replaces the value at its own key's position and keeps every other entry |
| ReportList.Dedup | src/components/reports/ReportList.tsx:34 | `Array.from(new Map(...).values())`: no longer than the input, and every entry comes from it |
| ReportList.DedupIds | src/components/reports/ReportList.tsx:34 | The kept ids are the distinct ids of the merged list, in order of first appearance |
| ReportList.DedupKeepsLastValue | src/components/reports/ReportList.tsx:34 | Each kept entry is the last report with its id |
| ReportList.DedupUniqueIds | src/components/reports/ReportList.tsx:34 | Ids are pairwise distinct, every id of the input is kept, and every entry comes from the input |
| ReportList.LastWithId | src/components/reports/ReportList.tsx:34 | The report chosen for an id is in the list, carries that id, and sits at a position after which no report has that id |
| ReportList.VisibleReports | src/components/reports/ReportList.tsx:23-36 | No user gives nothing. The result is a permutation of the de-duplicated list, ordered by date, newest first |
| ReportList.VisibleReportsIds | src/components/reports/ReportList.tsx:23-36 | Each id of the merged list is shown exactly once |
| ReportList.VisibleReportsNewestFirst | src/components/reports/ReportList.tsx:35 | On valid dates, no report is listed before an older one |
| ReportList.VisibleReportsStable | src/components/reports/ReportList.tsx:35 | The sort is stable: the reports of any one day keep the order they had after de-duplication |
| Seqs.SortByStable | src/components/reports/ReportList.tsx:35 | The sort used for both lists is stable: the elements with any one key keep their relative order |
| ReportList.HeadingOf | src/components/reports/ReportList.tsx:40-47 | The group key of a report: its day, its month, or its year, as the view asks |
| ReportList.SameHeading | src/components/reports/ReportList.tsx:40-47 | Two reports share a heading exactly when they have the same day, month and year, or year, as the view asks |
| ReportList.GroupReports | src/components/reports/ReportList.tsx:38-55 | The reduce loop yields one bucket per distinct heading, the keys in first-seen order. Each bucket is the in-order list of the reports with that heading |
| ReportList.GroupsPartitionReports | src/components/reports/ReportList.tsx:38-55 | Each report is in its own heading's bucket and in no other. Buckets keep list order. Bucket sizes add up to the number of reports |
| ReportList.DisplayOrder | src/components/reports/ReportList.tsx:67 | `Object.entries` order is a permutation of the insertion order |
| ReportList.DisplayOrderShape | src/components/reports/ReportList.tsx:67 | `Object.entries` lists the index-like keys first, as years in ascending order, then every other key in insertion order |
| ReportList.NoIndexKeepsOrder | src/components/reports/ReportList.tsx:67 | Keys that are not array indices are listed in insertion order |
| ReportList.DayAndMonthGroupsInInsertionOrder | src/components/reports/ReportList.tsx:38-67 | In the daily and monthly views the groups are shown in the order they were created |
| ReportList.YearHeadingsIndexLike | src/components/reports/ReportList.tsx:46 | In the yearly view, headings of years from 1000 on are array-index keys |
| ReportList.DisplayOrderOfYears | src/components/reports/ReportList.tsx:67 | Index-like keys are displayed in ascending numeric order |
| ReportList.YearlyGroupsAscend | src/components/reports/ReportList.tsx:46-67 | In the yearly view the groups are shown oldest year first, although the reports were sorted newest first |
| ReportList.SortedYears | src/components/reports/ReportList.tsx:67 | Group keys that look like array indices come out of the key enumeration as years in ascending order |
| ReportList.Toggle | src/components/reports/ReportList.tsx:58-62 | The toggled key's membership flips and no other key's changes |
| ReportList.ToggleTwice | src/components/reports/ReportList.tsx:58-62 | Toggling twice restores the set of expanded keys |
| ReportList.ToggleKeepsNoDup | src/components/reports/ReportList.tsx:58-62 | Toggling never lists a key twice |
| ReportList.GroupPanel.ToggleGroup | src/components/reports/ReportList.tsx:57-63 | `expandedGroups` is updated as `Toggle` says. The key's expanded state flips. No key is listed twice |
| ReportForm.NewTask | src/components/reports/ReportForm.tsx:20-25 | Fresh id, empty description, today's date; status is completed exactly for the completed list |
| ReportForm.WithoutId | src/components/reports/ReportForm.tsx:43 | Keeps exactly the tasks with another id |
| ReportForm.WithoutIdKeepsRest | src/components/reports/ReportForm.tsx:43 | Removal keeps the remaining tasks in order, with every copy |
| ReportForm.WithDescription | src/components/reports/ReportForm.tsx:62-64 | Same length. Ids, statuses and dates are unchanged. Exactly the tasks with the id get the new description |
| ReportForm.WithDescriptionLastWins | src/components/reports/ReportForm.tsx:62-64 | Two edits of one task keep the second text |
| ReportForm.RemoveAfterEdit | src/components/reports/ReportForm.tsx:43-64 | Editing and then removing a task is the removal alone |
| ReportForm.RemoveAfterAdd | src/components/reports/ReportForm.tsx:19-52 | Removing a task just added under a fresh id restores the list |
| ReportForm.Form.AddTask | src/components/reports/ReportForm.tsx:19-38 | The new task is appended to the chosen list; the other lists are unchanged |
| ReportForm.Form.RemoveTask | src/components/reports/ReportForm.tsx:40-52 | The chosen list loses the tasks with the id; the other lists are unchanged |
| ReportForm.Form.UpdateTask | src/components/reports/ReportForm.tsx:54-82 | The chosen list gets the new description on the tasks with the id; the other lists are unchanged |
| ReportForm.Form.HandleSubmit | src/components/reports/ReportForm.tsx:84-128 | No user, or three empty lists: no call and nothing changes. Otherwise `addReport` gets the user id, today and the three lists, and saving ends. The lists are cleared only when the call did not throw |
| ActivityLog.ActivitiesOfReport | src/components/reports/ActivityLog.tsx:10-31 | A report yields one to three entries: always 'created', plus 'updated' exactly when it was edited and 'shared' exactly when it is shared. Each entry has its date, its report's id and date, and the id `<report id>-<kind>` |
| ActivityLog.ActivitiesOf | src/components/reports/ActivityLog.tsx:10-31 | The `flatMap` callback: the 'created' entry, then 'updated' if the report was edited, then 'shared' if it is shared |
| ActivityLog.OneCreatedEntry | src/components/reports/ActivityLog.tsx:11-17 | Exactly one 'created' entry per report |
| ActivityLog.SuffixesDiffer | src/components/reports/ActivityLog.tsx:12-26 | Different kinds give different entry ids |
| ActivityLog.ActivityIdsDistinct | src/components/reports/ActivityLog.tsx:10-31 | The entry ids of one report are distinct |
| ActivityLog.Activities | src/components/reports/ActivityLog.tsx:10-32 | The feed is a permutation of the per-report entries, sorted newest first |
| ActivityLog.ActivitiesStable | src/components/reports/ActivityLog.tsx:32 | The sort is stable: entries with the same timestamp keep the order in which the reports produced them |
| ActivityLog.ActivityCount | src/components/reports/ActivityLog.tsx:10-32 | The feed length is the number of reports, plus the edited ones, plus the shared ones |
| ActivityLog.FlatMapCount | src/components/reports/ActivityLog.tsx:10-31 | The same count for the unsorted `flatMap` |
| ActivityLog.ActivitiesComeFromReports | src/components/reports/ActivityLog.tsx:10-32 | An entry is in the feed exactly when some report yields it |
| ReportHistory.MonthlyReports | src/components/reports/ReportHistory.tsx:12-17 | Exactly the reports dated between the first and last day of the selected month |
| ReportHistory.MonthlyReportsMatchStore | src/components/reports/ReportHistory.tsx:12-17 | On valid dates, this is the store's monthly selection for the same month |
| ReportHistory.CompletionRate | src/components/reports/ReportHistory.tsx:44 | 0 when the total is 0; otherwise `completed/total*100` rounded half-up; never above 100 |
| ReportHistory.CalculateStats | src/components/reports/ReportHistory.tsx:39-47 | The total is completed + pending + planned. The rate is at most 100, and 0 when there are no tasks |
| ReportHistory.StatsMatchMonthlyReport | src/components/reports/ReportHistory.tsx:39-47 | The month's statistics are the store's monthly task totals. Planned tasks are part of the rate's denominator |
| ReportHistory.MonthsEndingAt | src/components/reports/ReportHistory.tsx:19-22 | Twelve consecutive calendar months, ending with the current one |
| ReportHistory.MonthsAreDistinct | src/components/reports/ReportHistory.tsx:19-22 | The twelve months are distinct |
| Rates.RoundedPercent | src/components/reports/ReportHistory.tsx:44 | The result r satisfies `r <= 100*part/whole + 1/2 < r + 1`, i.e. rounding half-up |
| Rates.PercentInRange | src/components/reports/ReportHistory.tsx:44 | A part no larger than the whole gives at most 100 |
| Rates.PercentOfAllAndNone | src/components/reports/ReportHistory.tsx:44 | All gives 100 and none gives 0 |
| Rates.PercentMonotone | src/components/reports/ReportHistory.tsx:44 | A larger part of the same whole never gives a smaller rate |
| ReportSidebar.SidebarRate | src/components/reports/ReportSidebar.tsx:85 | No value (NaN) exactly when there are no completed or pending tasks. Otherwise `completed/(completed+pending)*100` rounded half-up, at most 100 |
| ReportSidebar.AllTasks | src/components/reports/ReportSidebar.tsx:23-25 | One of the three `flatMap`s over the month's reports |
| ReportSidebar.SummaryOf | src/components/reports/ReportSidebar.tsx:85-97 | The three summary lines: the rate, the total of the three task lists, and the number of reports of the month |
| ReportSidebar.AllTasksAreTheMonthsTasks | src/components/reports/ReportSidebar.tsx:23-25 | A task is listed exactly when it is in that list of some report of the month. The list's length is the month's task total |
| ReportSidebar.SummaryMatchesMonthlyReport | src/components/reports/ReportSidebar.tsx:15-25 | On valid dates: total tasks are the store's three monthly totals added; reports submitted is its report count; the rate leaves planned tasks out |
| ReportStats.CountsAreNested | src/components/reports/ReportStats.tsx:9-52 | Today's count ≤ month's count ≤ year's count ≤ number of reports |
| ReportStats.CountsAreCalendarCounts | src/components/reports/ReportStats.tsx:9-29 | On valid dates, the month and year counters count the reports of the current calendar month and year |
| ReportStats.TodayCount | src/components/reports/ReportStats.tsx:52 | The number of reports dated today, never more than all reports |
| ReportStats.MonthCount | src/components/reports/ReportStats.tsx:9-18 | The number of reports between the month's first and last day, never more than all reports |
| ReportStats.YearCount | src/components/reports/ReportStats.tsx:20-29 | The number of reports between the year's first and last day, never more than all reports |
| Calendar.OrdinalOrdersDays | src/components/reports/ReportList.tsx:35 | On existing days, the sort key orders days as the calendar does, and equal keys mean equal days |
| Calendar.MonthRangeIsCalendarMonth | src/components/reports/ReportHistory.tsx:13-16 | On a valid date, lying between the month's first and last day is having its month and year |
| Calendar.YearRangeIsCalendarYear | src/components/reports/ReportStats.tsx:22-27 | On a valid date, lying between the year's first and last day is having its year |
| Calendar.MonthRangeWithinYearRange | src/components/reports/ReportStats.tsx:11-27 | A day within a month's range is within that year's range |
| DepartmentSettings.TrimStart | src/components/settings/DepartmentSettings.tsx:13 | Returns a suffix of the input. Only white space is dropped, and the result does not start with white space |
| DepartmentSettings.TrimEnd | src/components/settings/DepartmentSettings.tsx:13 | Returns a prefix of the input. Only white space is dropped, and the result does not end with white space |
| DepartmentSettings.IsSpace | src/components/settings/DepartmentSettings.tsx:13 | The characters `trim` removes: the ECMAScript WhiteSpace and LineTerminator code points |
| DepartmentSettings.Trim | src/components/settings/DepartmentSettings.tsx:13 | `trim`: no longer than the input, and not ending with white space |
| DepartmentSettings.TrimKeepsMiddle | src/components/settings/DepartmentSettings.tsx:13-14 | `trim` keeps one contiguous piece, removes only white space around it, and leaves none at either end |
| DepartmentSettings.BlankIffAllSpace | src/components/settings/DepartmentSettings.tsx:13 | The trimmed value is empty exactly when the value is all white space |
| DepartmentSettings.TrimIdempotent | src/components/settings/DepartmentSettings.tsx:14 | Trimming a trimmed value changes nothing |
| DepartmentSettings.WithoutIndex | src/components/settings/DepartmentSettings.tsx:21 | Filtering by index removes exactly position `i` when it exists, and nothing otherwise |
| DepartmentSettings.WithoutIndexPositions | src/components/settings/DepartmentSettings.tsx:21 | Earlier names keep their positions, later ones move down by one, and the list is one shorter |
| DepartmentSettings.RemoveAfterAdd | src/components/settings/DepartmentSettings.tsx:14-21 | Adding a name, then removing the last position, restores the list |
| DepartmentSettings.Settings.constructor | src/components/settings/DepartmentSettings.tsx:7-10 | Starts with Development, Design and Marketing, empty inputs, and nothing being edited |
| DepartmentSettings.Settings.HandleAddDepartment | src/components/settings/DepartmentSettings.tsx:12-18 | A blank input changes nothing. Otherwise the trimmed name is appended, duplicates included, and the input is cleared |
| DepartmentSettings.Settings.HandleRemoveDepartment | src/components/settings/DepartmentSettings.tsx:20-23 | Exactly position `i` is removed |
| DepartmentSettings.Settings.StartEditing | src/components/settings/DepartmentSettings.tsx:25-28 | The editing index is `i` and the edit value is the name at `i` |
| DepartmentSettings.Settings.HandleSaveEdit | src/components/settings/DepartmentSettings.tsx:30-38 | A blank value changes nothing and the editor stays open. Otherwise only position `i` becomes the trimmed value, the length is kept, and the editor closes |
| DepartmentSettings.EditUnchanged | src/components/settings/DepartmentSettings.tsx:25-38 | Opening an edit and saving it at once stores the trimmed name and closes the editor |
| ReportViewer.FindIndexOf | src/components/reports/ReportViewer.tsx:28 | `findIndex`: -1 exactly when no task has the id; otherwise the first position holding it |
| ReportViewer.FindTaskIndex | src/components/reports/ReportViewer.tsx:28 | The search loop over the array returns `FindIndexOf` of its contents |
| ReportViewer.EditFirst | src/components/reports/ReportViewer.tsx:28-31 | Same length. Ids, statuses and dates are unchanged. Only the first task with the id gets the new description |
| ReportViewer.EditFirstIsFormEdit | src/components/reports/ReportViewer.tsx:28-31 | With unique ids, this is the report form's edit of every match |
| ReportViewer.EditFirstLeavesLaterCopies | src/components/reports/ReportViewer.tsx:28-31 | With a repeated id, later copies keep their text, unlike the form's edit |
| ReportViewer.ReportObject.Spread | src/components/reports/ReportViewer.tsx:26 | The copy has the same fields and holds the same three arrays |
| ReportViewer.Viewer.HandleTaskUpdate | src/components/reports/ReportViewer.tsx:25-34 | If no task has the id, nothing changes and the state keeps the old object. Otherwise only the first such task gets the description, the other lists and fields stay, the new object becomes the state, and the old object shows the same edit |
| ReportViewer.Viewer.HandleSaveChanges | src/components/reports/ReportViewer.tsx:36-44 | The store receives the shown report through `updateReport`, and editing mode ends |
| ReportViewer.EditReachesInitialReport | src/components/reports/ReportViewer.tsx:18-31 | The object the viewer was opened with also shows the edit |
| TeamMembers.Departments | src/components/TeamMembers.tsx:6 | No duplicates. A department is listed exactly when some role-'member' entry has it |
| TeamMembers.DepartmentsInFirstSeenOrder | src/components/TeamMembers.tsx:6 | Headings follow the order in which departments first occur among members |
| TeamMembers.Section | src/components/TeamMembers.tsx:20-22 | The cards under one heading: the role-'member' entries of that department |
| TeamMembers.SectionIsDepartment | src/components/TeamMembers.tsx:20-22 | A section lists exactly that department's members, in list order, every copy |
| TeamMembers.EachMemberInOneSection | src/components/TeamMembers.tsx:6-22 | Every member is under exactly one heading; managers are under none |
| TeamMembers.DirectorySections | src/data/teamMembers.ts:1-82 | For the shipped directory the headings are Development, Design and Marketing, in that order |

## Left out

- **Rendering.** JSX, icons, styling, toasts and `console.log` calls are not modelled. The same goes for PDF and image export through `html2canvas` and `jsPDF`.
- **Persistence.** zustand's `persist` storage, navigation and the Electron and Capacitor shells are left out. `ReportStore.ReportStore.constructor` takes the rehydrated list as given.
- **Store operations with no body in the store file.** These are `addReport`, `shareReport`, `getAllReports`, `getReportsByUserId` and `getSharedReports`. Their results are parameters (`all`, `own`, `shared`), and whether `addReport` throws is the `addReportThrows` flag.
- **Hashing and randomness.** bcrypt's cost factor is not modelled. The salt is recorded in the hash, but `Compare` ignores it. bcrypt's 72-byte truncation of passwords is not modelled either, so `Compare` separates every two different passwords. `Math.random()` passwords, uuids and clock readings are parameters.
- **Asynchrony.** `login`, `register` and `resetPassword` run as single steps. They await between reading and writing `users`, so two interleaved calls could register one email twice; that interleaving is not modelled.
- **Login.tsx** calls `login` with an object that does not match its signature; it is not modelled.
- **Time zones and date parsing.** A date string is read as one calendar day. The UTC-versus-local differences between `new Date(s)`, `parseISO` and `getMonth` are not modelled. Timestamps are integers.
- **Floating point.** `Math.round` is modelled by exact rational rounding half-up, so cases where float division lands just beside a half are not reproduced.
- **Other UI-only code.** The saving flag's intermediate `true` value, the `TaskInput` and rich-text widgets, speech input, and the grammar-correction request are not modelled.
- **MonthlyView and YearlyView** compute a completion rate only for display; it is not modelled. The same rate function would apply.
- `ReportViewer.Viewer.HandleSaveChanges` does not model the `catch` branch, because the modelled `updateReport` cannot fail.
- `ReportStore.ReportStore.UpdateReport` stores a value, not a shallow copy sharing task arrays. The store's `{...updatedReport, updatedAt}` shares the three task arrays with the object passed in.
- `ReportViewer.Viewer.HandleSaveChanges` hands the store a value, so it does not capture that sharing. After a save, every later in-place `handleTaskUpdate` in the viewer also changes the stored record, with no save and no new `updatedAt`; the model does not show this.
- `AuthStore.EncodeUriComponent` works on Unicode scalar values, so a name holding a lone UTF-16 surrogate cannot be represented. On such a name `encodeURIComponent` throws `URIError`, so `register` fails; that error path is not modelled.
- `ReportViewer.Viewer.HandleTaskUpdate` requires the report's three task lists to be three different arrays, as every report built from stored data has.
- `DepartmentSettings.Settings.StartEditing` and `DepartmentSettings.Settings.HandleSaveEdit` require a listed position, because the component invokes them only from a rendered row. Writing past the end of a JavaScript array is not modelled.
- `DepartmentSettings.Settings.HandleRemoveDepartment` leaves `editingIndex` unchanged, as the source does. After a removal the editor may point at a different name or past the end.
- `ReportStore.YearlyTotalsAreMonthlySums` assumes every stored month number is 0 to 11, which is the range `getMonth` returns.
- `ReportList.YearlyGroupsAscend` covers years 1000 to 2^32 - 2. Only those render as canonical array indices with four or more digits.
