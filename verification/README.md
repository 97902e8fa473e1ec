# HRMS attendance and request guards, modelled in Dafny

This project models the core of an HR management server's attendance and
break tracking.

**Attendance state machine.** Each user has one attendance record per day, and four requests change it:

- check-in
- check-out
- break-start
- break-end

Each request checks its preconditions in a fixed order and rejects with a specific 400 message. Otherwise it updates the record and computes minute totals with `Math.round`.

**Read-only views.**

- `/today` derives flags from the record.
- `/live-status` sorts today's records into working, on-break and checked-out lists.
- `/my` is a user's own history.
- The management list is paginated.

**Guards.** Around the attendance core sit the guards of four other parts of the server:

- the `Authorization: Bearer` check and the role gates;
- the leave-request lifecycle: submit, review, delete while pending;
- task creation and task status updates;
- password-reset requests with their approval or rejection.

**How it is modelled.**

- Every route is a pure function from the state it reads to a `Result`: the rejection, or the state it writes.
- Instants are integer milliseconds. `Math.round(ms / 60000)` is `(ms + 30000) / 60000` with floor division.
- The current time, the caller, the zone offset and fresh database ids are parameters. So are the JWT verification, bcrypt hashing and date parsing.

Modules, one per concern:

| module | file | models |
|---|---|---|
| `Common` | common.dfy | `Option`, `Result`, JavaScript truthiness of request fields, `filter` / `take` |
| `TimeMath` | time_math.dfy | minute rounding, the `[today, today + 24h)` day bucket, `getTodayDate` |
| `Pagination` | pagination.dfy | `skip`, `take`, `Math.ceil(total / limit)` of the list routes |
| `Scope` | scope.dfy | the list routes' user filter and the manager override |
| `AttendanceModel` | attendance_model.dfy | record, breaks, open-break scans, break sums, record invariants, day phase |
| `AttendanceOps` | attendance_ops.dfy | the four transitions, plus a corrected check-out |
| `AttendanceProperties` | attendance_props.dfy | invariant preservation, the state machine, replay of a day, worked examples |
| `AttendanceViews` | attendance_views.dfy | `/today`, `/live-status`, `/my`, the management list |
| `AttendanceStore` | attendance_store.dfy | requests against the whole table of records: one record per user and day |
| `Auth` | auth.dfy | `verifyToken`, `requireRole` and the three named gates |
| `Leaves` | leaves.dfy | leave-request routes |
| `Tasks` | tasks.dfy | task routes |
| `PasswordReset` | password_reset.dfy | password-reset routes |

## Model

| member | source | states |
|---|---|---|
| Common.Filter | server/routes/leaves.js:12-16 | A `where` over rows the store lists in order: the result is a subsequence of the input, in the same order. Each row that passes the test appears exactly as often as in the input, and no other row appears. |
| Common.SubsequenceKeepsOrder | server/routes/leaves.js:15 | Whatever order the input rows are listed in (`orderBy`), a subsequence of them is listed in that order too. |
| TimeMath.RoundMinutes | server/routes/attendance.js:162 | `Math.round(ms / 60000)`: the result `m` lies within half a minute of the span, `60000*m - 30000 <= ms < 60000*m + 30000`. A non-negative span gives a non-negative count. |
| TimeMath.RoundMinutesUnique | server/routes/attendance.js:153 | That half-open bracket holds exactly one integer. So the model is round-half-up, as `Math.round` is, for negative spans too. |
| TimeMath.RoundMinutesMonotone | server/routes/attendance.js:263 | A longer span never rounds to fewer minutes. |
| TimeMath.RoundMinutesExample | server/routes/attendance.js:153 | 90 500 ms gives 2 and 89 999 ms gives 1. Exactly 90 000 ms gives 2, since a half rounds up. -30 000 ms gives 0. |
| TimeMath.StartOfDay | server/routes/attendance.js:8-11 | `getTodayDate()` for a fixed zone offset: the day bucket starting at the result contains `now`, and the result is a local midnight. |
| TimeMath.StartOfDayUnique | server/routes/attendance.js:8-11 | Local midnight is the only zone-aligned instant whose 24-hour bucket contains `now`. |
| TimeMath.SameBucketIffSameMidnight | server/routes/attendance.js:46-52 | An instant falls in today's `[today, today + 24h)` window exactly when it has the same local midnight as `now`. |
| Pagination.PageCount | server/routes/attendance.js:341 | `Math.ceil(total / limit)`: the fewest pages of `limit` rows that hold `total` rows. |
| Pagination.PageRows | server/routes/attendance.js:319-331 | A page has at most `limit` rows. Its i-th row is row `(page-1)*limit + i` of the filtered list. A page past the end is empty. |
| Pagination.Paginate | server/routes/attendance.js:335-343 | The response carries the page, the limit, the number of matching rows as `total`, and `pages` from `PageCount`. |
| Pagination.PaginateQuery | server/routes/attendance.js:296-343 | A missing `page` or `limit` takes the route's default of 1 or 20. Without `limit` a page holds at most 20 rows and reports a limit of 20. Without `page` the response is the first rows of the list. |
| Pagination.PagesThroughIsPrefix | server/routes/attendance.js:319-330 | Reading pages 1 to k one after another yields exactly the first `k*limit` rows, or all rows if there are fewer. |
| Pagination.PagesCoverAllRows | server/routes/attendance.js:319-341 | Pages 1 to `pages` visit every row once and in order. None of them is empty, and the page after the last is empty. |
| Scope.ListScope | server/routes/attendance.js:308-317 | A manager's filter is always the set of employee ids, whatever `userId` says. For other roles the filter is the given `userId` if truthy, and no filter otherwise. |
| Scope.ManagerScopeIgnoresRequest | server/routes/leaves.js:35-41 | For a manager a row is listed exactly when its owner is an employee, and the requested id makes no difference. |
| AttendanceModel.AnyOpen | server/routes/attendance.js:373 | `breaks.some(b => !b.endTime)` is true exactly when some break has no end time. |
| AttendanceModel.FirstOpen | server/routes/attendance.js:151 | `breaks.find(b => !b.endTime)` gives the position of an open break with no open break before it. It is absent exactly when no break is open. |
| AttendanceModel.CloseBreak | server/routes/attendance.js:153-157 | Ending a break keeps its start and sets its end to `now`. Its duration becomes the rounded minutes since the start. |
| AttendanceModel.SumDurationsUpdate | server/routes/attendance.js:161 | Replacing one break changes the `duration \|\| 0` sum by the difference between the two breaks' contributions. |
| AttendanceModel.SumSubstitutingIsSwap | server/routes/attendance.js:271-274 | Break-end's reduce, which substitutes the new duration for the ended break, equals the plain sum with that break's contribution swapped. |
| AttendanceModel.TimelyDurationsNonNegative | server/routes/attendance.js:263 | When every break is consistent and lies between check-in and now, every break duration is non-negative, and so is their sum. |
| AttendanceOps.CheckIn | server/routes/attendance.js:91-112 | Rejected with "Already checked in today" exactly when today's record has a check-in. Otherwise check-in becomes `now` and status becomes "present". An existing record changes in no other field. A new record belongs to the caller and today, with no check-out and no breaks. |
| AttendanceOps.CloseActiveBreak | server/routes/attendance.js:150-157 | Only the first open break is ended and all other breaks stay as they were. Without an open break nothing changes. |
| AttendanceOps.CheckOut | server/routes/attendance.js:142-173 | "Not checked in today" is checked first, then "Already checked out today". It succeeds exactly when checked in and not yet out. The break total is summed over the breaks as loaded, and work time is elapsed minutes less that total. So a break ended here counts zero. |
| AttendanceOps.CheckOutCorrected | server/routes/attendance.js:161-163 | The same rejections and the same record as `CheckOut`, except that both totals count the break that check-out ends. |
| AttendanceOps.BreakStart | server/routes/attendance.js:205-224 | It rejects, in this order, when not checked in, when already checked out, and when already on a break. It succeeds exactly in the working phase. On success it appends exactly one break that starts at `now` and has no end. |
| AttendanceOps.BreakEnd | server/routes/attendance.js:254-279 | It rejects only when there is no record or no open break, and never consults check-in or check-out. It ends the first open break. The new break total is the sum over the updated breaks. No other field changes. |
| AttendanceProperties.CloseOnlyOpenBreak | server/routes/attendance.js:150-157 | With at most one break open, check-out's break handling leaves none open. |
| AttendanceProperties.StepPreservesWellFormed | server/routes/attendance.js:75-291 | Every accepted request keeps the record invariant, and a rejected one writes nothing. The invariant says:<br>- check-out only after check-in;<br>- at most one open break, and none after check-out;<br>- every ended break carries its rounded duration;<br>- the break total equals the sum of durations until check-out;<br>- at check-out, work time is elapsed minutes less break time. |
| AttendanceProperties.StepPreservesTimely | server/routes/attendance.js:75-291 | With a clock that does not run backwards, all recorded instants stay in order and the break total stays non-negative. |
| AttendanceProperties.StepFollowsStateMachine | server/routes/attendance.js:75-291 | On a well-formed record, a request is accepted exactly when the day's state machine allows it in the current phase. The machine is: not started, then working and on a break any number of times, then checked out. The record is then in the phase the machine names. |
| AttendanceProperties.CheckOutIsTerminal | server/routes/attendance.js:142-148 | After check-out every request is refused, each with its own message. Break-end answers "Not on break". |
| AttendanceProperties.RepeatedRequestsRefused | server/routes/attendance.js:91-93 | A second check-in is refused, and so is a second break-start before the break ends. |
| AttendanceProperties.ReplayKeepsInvariants | server/routes/attendance.js:75-291 | Any sequence of requests in a day keeps the record invariant. With non-decreasing request times the record also stays timely. |
| AttendanceProperties.FullDayExample | server/routes/attendance.js:238-291 | Check-in at t0, a break from t0+10m to t0+15m and check-out at t0+60m give a 5-minute break, 5 minutes of break time and 55 minutes of work. |
| AttendanceProperties.CheckOutDropsAutoClosedBreak | server/routes/attendance.js:151-163 | As written: check-in at t0, break-start at t0+10m and check-out at t0+20m store a 10-minute break. Yet the reply and record say 0 minutes of break and 20 of work. |
| AttendanceProperties.CheckOutBreakShortfall | server/routes/attendance.js:154-161 | As written, check-out's break total falls short of the recorded durations by exactly the rounded length of the break it ends, and by nothing otherwise. |
| AttendanceProperties.CheckOutCorrectedExample | server/routes/attendance.js:161-163 | With the correction, the same day gives 10 minutes of break and 10 of work. |
| AttendanceProperties.CheckOutCorrectedKeepsBreakTotal | server/routes/attendance.js:161-170 | With the correction, the stored break total equals the sum of the recorded durations after check-out too, and the record stays well-formed. |
| AttendanceProperties.WorkTimeCanBeNegative | server/routes/attendance.js:162-163 | Two back-to-back 30-second breaks filling a one-minute day round to 2 minutes of break. Work time is then -1. |
| AttendanceViews.Today | server/routes/attendance.js:58-67 | `isCheckedIn` and `isCheckedOut` are true exactly when the record has those instants. `isOnBreak` is true exactly when some break is open. `currentBreak` is present exactly when on a break, and is the first open break. |
| AttendanceViews.TodayWithoutRecord | server/routes/attendance.js:58-64 | With no record every flag is false and there is no current break. |
| AttendanceViews.TodayAgreesWithPhase | server/routes/attendance.js:58-67 | On a well-formed record the flags determine the day's phase. Checked out implies checked in and not on a break, and on a break implies checked in. |
| AttendanceViews.GetLiveStatus | server/routes/attendance.js:368-394 | Each list is the relabelled records of its bucket, in fetch order. `totalPresent` is the number of fetched records. Each summary count is its list's length, and the three counts add up to at most `totalPresent`. |
| AttendanceViews.BucketMembership | server/routes/attendance.js:372-382 | A record appears in a list exactly when the precedence places it there: checked out, else on a break, else working if checked in. |
| AttendanceViews.BucketCounts | server/routes/attendance.js:384-393 | Each record goes to exactly one list or to none. The three counts plus the unlisted records equal `totalPresent`. |
| AttendanceViews.ClassifyAgreesWithPhase | server/routes/attendance.js:373-381 | On a well-formed record the live list is the day's phase: unlisted before check-in, then working, on break or checked out. |
| AttendanceViews.CheckedOutTakesPrecedence | server/routes/attendance.js:375-378 | A checked-out record with a break still open is listed as checked out. |
| AttendanceViews.History | server/routes/attendance.js:18-31 | At most 30 records, all the caller's, within the date range when one applies. They are a prefix of the matching records, and all of them when there are fewer than 30. |
| AttendanceViews.MyAttendance | server/routes/attendance.js:15-38 | The range applies only when both `startDate` and `endDate` are given. A 500 "Failed to fetch attendance" comes exactly when both are given and one is an invalid date. Otherwise the result is at most 30 of the caller's records, inside the parsed bounds when both are given. |
| AttendanceViews.MyAttendanceMostRecent | server/routes/attendance.js:27-32 | The history is newest first, and every matching record left out is no more recent than any record listed. |
| AttendanceViews.ListAttendance | server/routes/attendance.js:296-346 | A 500 "Failed to fetch attendance records" comes exactly when `date` is given and invalid. Otherwise:<br>- the rows are exactly the `skip`/`take` slice of the matching records for the requested page;<br>- `page`, `limit`, `total` and `pages` are as the route computes them, with 1 and 20 as defaults;<br>- every row is in the table and in the requested day;<br>- a manager sees only employees' rows, and others who give a `userId` see only that user's rows. |
| AttendanceViews.ListIgnoresDepartment | server/routes/attendance.js:296 | The `departmentId` parameter has no effect on the list. |
| AttendanceStore.FindToday | server/routes/attendance.js:81-89 | `findFirst` over the user and the day window: the first record of that user inside the window, absent exactly when there is none. |
| AttendanceStore.ApplyKeepsOwner | server/routes/attendance.js:96-111 | A transition never moves a record to another user or another day. A created record belongs to the caller and today. |
| AttendanceStore.Handle | server/routes/attendance.js:81-112 | A request's outcome is the transition's outcome on the record the lookup finds. The table gains at most one appended record, and records of other users or days are unchanged. |
| AttendanceStore.HandleWritesTodayRecord | server/routes/attendance.js:96-112 | After a request, the lookup for the caller's day finds the record the request wrote. |
| AttendanceStore.HandleIsolatesUsers | server/routes/attendance.js:46-53 | One user's request never changes what another user's lookup finds. |
| AttendanceStore.HandleKeepsOnePerUserDay | server/routes/attendance.js:91-112 | No request creates a second record for a user's day. |
| AttendanceStore.SecondCheckInRefused | server/routes/attendance.js:91-93 | Of two check-ins in one day at most the first succeeds. The second is refused with "Already checked in today", and one record remains. |
| Auth.Split | server/middleware/auth.js:14 | `split(' ')` returns at least one field. Joining the fields with the separator gives back the header, and no field contains the separator. |
| Auth.SplitJoin | server/middleware/auth.js:14 | Splitting undoes joining separator-free fields, so `Split` and `Join` are inverse. |
| Auth.TokenAfterBearer | server/middleware/auth.js:10-14 | After the "Bearer " prefix the token is the text up to the next space. A space-free token is extracted unchanged. |
| Auth.VerifyToken | server/middleware/auth.js:7-23 | "Access denied. No token provided." exactly when the header is absent or lacks the "Bearer " prefix. With the prefix, the result is the decoded caller exactly when `verify` accepts the extracted token, and "Invalid or expired token." exactly when it refuses it. |
| Auth.RequireRole | server/middleware/auth.js:26-42 | 401 exactly when there is no user. 403 with the required roles and the current role exactly when the role is not allowed. `next` exactly when a user exists and the role is listed. |
| Auth.NamedGates | server/middleware/auth.js:44-51 | The gates admit exactly {admin}, {admin, hr} and {admin, hr, manager}. Each admits everyone the previous one does. |
| Auth.GuardOutcomes | server/middleware/auth.js:7-42 | A token failure is answered by `verifyToken` with its own message, and the gate never runs. Behind `verifyToken` a gate always sees a user, so its own "Authentication required." never reaches the client, and every 401 is the token check's. A gate refusal is a 403 naming the required roles and the caller's role. The handler runs exactly for a verified caller whose role is allowed. |
| Leaves.Submit | server/routes/leaves.js:77-96 | "All fields are required" unless type, start date, end date and reason are all truthy. On success exactly one request is added, owned by the caller, with status "pending" and no approver. All other requests stay as they were. |
| Leaves.UpdateStatus | server/routes/leaves.js:106-122 | Only "approved" or "rejected" are accepted, and this is checked before the lookup. On success the request gets that status and the caller as approver, whatever its previous status. Nothing else changes. |
| Leaves.Delete | server/routes/leaves.js:134-155 | Checks in order: 404 when absent, 403 unless owner or admin/hr, 400 unless pending. On success exactly that one request is removed. |
| Leaves.SubmitThenDeleteRestores | server/routes/leaves.js:83-153 | Submitting and then deleting the new request as its owner restores the table exactly. |
| Leaves.ReviewedCannotBeDeleted | server/routes/leaves.js:112-149 | After a review nobody can delete the request: the owner and admin/hr get "Can only delete pending requests", and everyone else gets "Not authorized". |
| Leaves.SecondReviewOverrides | server/routes/leaves.js:108-117 | A second review of the same request has the same effect as if the first had not happened. |
| Leaves.MyLeaves | server/routes/leaves.js:10-16 | Exactly the caller's own requests, in the order the store lists them. Each appears as often as in the store, and nothing else appears. |
| Leaves.MyLeavesNewestFirst | server/routes/leaves.js:15 | Over requests listed newest first, the caller's requests come newest first. |
| Leaves.ListLeaves | server/routes/leaves.js:28-66 | The rows are exactly the `skip`/`take` slice of the matching requests for the requested page. `page`, `limit`, `total` and `pages` are as the route computes them, with 1 and 20 as defaults. Every row has the requested status. A manager sees only employees' requests. Others, when they give a `userId`, see only that user's requests. |
| Leaves.ManagerListIgnoresUserId | server/routes/leaves.js:32-41 | A manager's list does not depend on the `userId` parameter. |
| Tasks.CreateTask | server/routes/tasks.js:106-125 | "Title and assignee are required" unless both are truthy. A new task has the caller as assigner and status "pending". Its priority is the given one, or "medium". Its due date is the parsed one, or none. All other tasks stay as they were. |
| Tasks.UpdateTaskStatus | server/routes/tasks.js:137-163 | An invalid status (not pending, in-progress or completed) is refused before the lookup. Then 404 for an unknown task, then 403 unless the caller is the assignee or admin/hr/manager. On success only the status changes. |
| Tasks.UpdateTaskStatusIdempotent | server/routes/tasks.js:156-158 | Repeating a status update changes nothing more. |
| Tasks.UpdateTaskStatusUndo | server/routes/tasks.js:156-158 | Setting the previous status again restores the table exactly. |
| Tasks.AssigneeCanUpdateNewTask | server/routes/tasks.js:112-158 | The assignee of a newly created task can set any of the three statuses. |
| Tasks.MyTasks | server/routes/tasks.js:10-21 | Exactly the caller's assigned tasks, of the requested status when one is given, in the order the store lists them. Each appears as often as in the store. |
| Tasks.AssignedTasks | server/routes/tasks.js:33-44 | Exactly the tasks the caller assigned, of the requested status when one is given, in the order the store lists them. Each appears as often as in the store. |
| Tasks.ListTasks | server/routes/tasks.js:56-95 | The rows are exactly the `skip`/`take` slice of the matching tasks for the requested page. `page`, `limit`, `total` and `pages` are as the route computes them, with 1 and 20 as defaults. Every row has the requested status and priority. A manager sees only employees' tasks. Others, when they give an `assigneeId`, see only that assignee's tasks. |
| Tasks.ManagerListIgnoresAssignee | server/routes/tasks.js:61-70 | A manager's list does not depend on the `assigneeId` parameter. |
| PasswordReset.FindAccount | server/routes/passwordReset.js:13 | The account lookup: the first matching account, absent exactly when none matches. |
| PasswordReset.RequestReset | server/routes/passwordReset.js:11-31 | "Email not found" when no account has the email, and nothing is created. "Password reset already pending approval" when the user has a pending reset. Otherwise exactly one pending reset for that user is added. |
| PasswordReset.RequestResetKeepsOnePending | server/routes/passwordReset.js:19-29 | A request never gives a user a second pending reset. |
| PasswordReset.SecondRequestRefused | server/routes/passwordReset.js:19-25 | A second request with the same email is refused while the first is pending. |
| PasswordReset.ReviewReset | server/routes/passwordReset.js:56-87 | "Request not found" for an unknown id. Only "approved" changes a password: that account gets `hash(newPassword)`, or `hash("user123")` when no new password is given. Every review stores the given status, whatever it is, together with the reviewer and the time. |
| PasswordReset.ReviewCanBreakOnePending | server/routes/passwordReset.js:78-85 | As written, re-reviewing an approved reset with status "pending" leaves a user with two pending resets. |
| PasswordReset.ReviewResetValidated | server/routes/passwordReset.js:56-85 | The corrected review refuses any status other than approved or rejected. Otherwise it behaves as `ReviewReset`, and the reset ends approved or rejected. |
| PasswordReset.ReviewValidatedKeepsOnePending | server/routes/passwordReset.js:78-85 | With the status validated, a review never gives a user a second pending reset. |
| PasswordReset.RequestAgainAfterReview | server/routes/passwordReset.js:18-29 | Once a user's pending reset has been approved or rejected, the user can ask again. |
| PasswordReset.PendingResets | server/routes/passwordReset.js:41-45 | Exactly the resets awaiting approval, in the order the store lists them. Each appears as often as in the store. |

## Left out

- HTTP, Express and Prisma are abstracted:
  - Every route is a function from the table it reads to the table it writes.
  - Response bodies keep only the fields that carry logic, not the included user, approver or assignee relations.
  - A database error is modelled only where its cause is visible in the route: a taken id, an unknown id in `update`, an invalid date. Invalid dates are modelled in leave submission, task creation, `/my` and the management attendance list. Other errors are not modelled.
- Concurrency is not modelled, because the routes give no atomicity to verify. Examples are the check-then-create race in check-in, the parallel `Promise.all` queries, and the missing transactions.
- Time zones: `getTodayDate` uses the server's local midnight. It is modelled with a fixed zone offset, so daylight-saving changes are out.
- Foreign calls become function parameters:
  - JWT verification is `verify`.
  - bcrypt is `hash`.
  - `new Date(string)` is `parseDate`.
  - The database's fresh ids are explicit id arguments.
- The database schema is not part of this model. Its defaults are assumed: attendance totals start at 0, and leave, task and reset status start as "pending". All status columns are assumed to be plain strings.
- Row order of the list routes (`orderBy`) is an input: the functions take the rows already ordered by the database. Every list keeps that order, since each is a subsequence of its input.
- Pagination.PageRows: page and limit are required to be at least 1. A given value arrives as the integer `parseInt` makes of it. Non-numeric strings (`parseInt` gives NaN) and values below 1 are not modelled.
- Pagination.PaginateQuery: same requirement on page and limit after defaulting, for the same reason.
- AttendanceViews.ListAttendance: same requirement on page and limit after defaulting, for the same reason.
- Leaves.ListLeaves: same requirement on page and limit after defaulting, for the same reason.
- Tasks.ListTasks: same requirement on page and limit after defaulting, for the same reason.
- AttendanceModel.FirstOpen: a break is identified by its position, not by its database id. The routes compare ids, which are unique keys.
- Tasks.CreateTask: an assignee id that names no account makes the insert fail in the database. That failure is not modelled.
- The task routes `PUT /:id` and `DELETE /:id` are plain database writes with no logic, and are not modelled.
- The other route files have no logic beyond field presence and are not modelled. These are dashboard, employees, departments, announcements, performance, teams, hiring, payroll and auth login/registration.
- Payroll's floating-point arithmetic is not modelled.
- Startup scripts are not modelled.

## Findings

| source | as written | input that shows it | evidently intended | confidence | as-written member | corrected member |
|---|---|---|---|---|---|---|
| server/routes/attendance.js:161 | Check-out ends the open break and stores its duration. It then sums `duration \|\| 0` over the breaks as loaded, before that break was ended, so the ended break counts 0. | Check-in at t0, break-start at t0+10m, check-out at t0+20m. The stored break lasts 10 minutes. `totalBreakTime` is 0 and `totalWorkTime` is 20. | The break that check-out ends counts: 10 minutes of break and 10 of work. | medium, not executed | AttendanceProperties.CheckOutDropsAutoClosedBreak | AttendanceProperties.CheckOutCorrectedKeepsBreakTotal |
| server/routes/passwordReset.js:78-85 | The review stores whatever `status` it is sent. The comment on line 56 and the leave review both expect only approved or rejected. | A user has an approved reset r1 and a new pending reset r2. A manager re-reviews r1 with status "pending", and the user now has two pending resets. | Statuses other than approved or rejected are refused, so each user keeps at most one pending reset. | medium, not executed | PasswordReset.ReviewCanBreakOnePending | PasswordReset.ReviewValidatedKeepsOnePending |

The first row explains why check-out is modelled as written. `AttendanceOps.CheckOut` is the code's behaviour, and `AttendanceOps.CheckOutCorrected` is the fix. An account of check-out in which the break it ends counts towards both totals describes the corrected behaviour, not the code.
