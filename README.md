# Appointment booking and the patient's appointment list, in Dafny

This project models two pieces of a hospital appointment system:

- the backend user controller (`backend/Controllers/userController.js`): booking an
  appointment (user check, doctor check, duplicate check, end-time computation, one
  create) and the user-record handlers `updateUser`, `deleteUser`, `getUser` and
  `getAllUsers`;
- the scheduling helpers of the patient's appointment list
  (`frontend/src/Pages/user/UserAppoienments.jsx`): the "is the appointment now" test
  that gates the chat button, the status badge, sorting by date, pagination by six
  entries, and the view state (current page, open chat panel, draft, chat history).

Files:

- `wrappers.dfy`: `Option`.
- `calendar.dfy`: dates and times as already-parsed integer fields (`Date`, `Time`),
  day numbers since 1970-01-01, millisecond instants, reading back day/hour/minute
  from an instant, and the canonical `YYYY-MM-DD` / `HH:MM` text forms, with readers
  that accept exactly those forms (used to read the slot back out of the duplicate
  message).
- `user_controller.dfy`: the `Database` class holding the user, doctor and
  appointment collections as sequences in insertion order (so Mongoose's `findOne` is
  "the first match"), with one method per handler. Each method is a run of
  early-return guards followed by at most one change to one collection. The reply is
  a status code, a message and, on success, a payload. `SameSlotTwoPatients` is a
  client of the class. It books the same doctor, date and time for two different
  patients; both succeed. A repeat by the first patient is refused with 400 and
  nothing is written.
- `appointment_list.dfy`: the pure helpers as functions with lemmas, and the React
  state as the `ListView` class whose methods are the click and input handlers.

Behaviour of the code worth pointing out, each item proved by the members named:

- The duplicate check matches patient, doctor, date and time
  (`userController.js:132`). It does not match doctor, date and time alone, so two
  different patients can book the same doctor at the same date and time
  (`OtherPatientIsNoDuplicate`, `SameSlotTwoPatients`).
- `endtime` is the naive local start plus one hour plus a fixed 5 h 30 min
  (`userController.js:138-141`), that is 6 h 30 min after the start on the same
  wall clock (`EndTime`, `EndTimeReadsBack`).
- The live-window test is a clock-hour bucket (same day, same `getHours`). It is not
  the interval [start, start + 1 h) (`IsAppointmentNowIsHourBucket`).

## Model

| member | source | states |
|---|---|---|
| Calendar.LocalInstantDecodes | frontend/src/Pages/user/UserAppoienments.jsx:60-65 | `DayOf`, `HourOf` and `MinuteOf` of the instant `LocalInstant` builds from a date and an `HH:MM` time give back that day number, hour and minute |
| Calendar.ParseFormatDate | backend/Controllers/userController.js:134 | `ParseDate` of the `YYYY-MM-DD` form written by `FormatDate` gives the same date back |
| Calendar.FormatParseDate | backend/Controllers/userController.js:134 | every string that reads as a date is exactly that date's written form |
| Calendar.ParseFormatTime | backend/Controllers/userController.js:134 | reading an `HH:MM` written time gives the same time back |
| Calendar.FormatParseTime | backend/Controllers/userController.js:134 | every string that reads as a time is exactly that time's written form |
| UserController.FirstIndex | backend/Controllers/userController.js:13 | the first-match search: the first position whose element satisfies the test, with none before it, or none exactly when no element does |
| UserController.UserIndex | backend/Controllers/userController.js:66-71 | `findById`: the position of the first user with the id, or none exactly when no user has it |
| UserController.EmailIndex | backend/Controllers/userController.js:13 | `findOne({ email })`: the first user holding the email, or none exactly when nobody holds it |
| UserController.EndTime | backend/Controllers/userController.js:138-141 | `endtime` is the start instant plus 6 h 30 min (1 h session plus the 5.5 h offset), integer milliseconds |
| UserController.EndTimeReadsBack | backend/Controllers/userController.js:138-141 | read on the same clock, the end time falls 6 h 30 min after the booked time: for a booked time of `m` minutes past midnight, day `DayNumber(d) + (m + 390) / 1440`, hour `((m + 390) % 1440) / 60`, minute `(m + 390) % 60`, so on the next day from 17:30 on |
| UserController.AlreadyBookedMessageNamesSlot | backend/Controllers/userController.js:134 | the duplicate message `AlreadyBookedMessage` is `Appointment already booked for <date> and <time>`, 51 characters, and both can be read back from it |
| UserController.AlreadyBookedMessageInjective | backend/Controllers/userController.js:134 | two duplicate messages are equal only for the same date and time |
| UserController.OtherPatientIsNoDuplicate | backend/Controllers/userController.js:132 | the duplicate key includes the patient: another patient's booking of the same doctor, date and time does not make `AlreadyBooked` hold |
| UserController.EmailTakenIffHeldByOther | backend/Controllers/userController.js:13-16 | with unique emails, `EmailTakenByOther` ("Email already in use.") holds exactly when a user with a different id holds the email |
| UserController.KeepingOwnEmailPasses | backend/Controllers/userController.js:14 | a user sending back their own email passes the guard when no earlier user holds that email (the guard looks only at the first holder) |
| UserController.ViewHidesOnlyPassword | backend/Controllers/userController.js:74-85 | two users have the same `getUser` projection `View` exactly when they differ at most in the password |
| UserController.AllUsersHidePasswords | backend/Controllers/userController.js:102-103 | every record `WithoutPassword` returns for `getAllUsers` has no password and is otherwise the stored user |
| UserController.Database.BookAppointment | backend/Controllers/userController.js:117-155 | 404 "User not found." before 404 "Doctor not found." before 400 duplicate (same patient, doctor, date, time), each with no write; otherwise 201 and exactly one appointment appended (given ids, date, time, `chat` true, `endtime` = start + 6 h 30 min, fresh id) with earlier ones unchanged; keeps "no duplicate bookings" |
| UserController.Database.UpdateUser | backend/Controllers/userController.js:5-32 | 400 "Email is required." for a missing or empty email, then 400 "Email already in use." when the first holder has another id, then 404 for an unknown id, all with no change; otherwise only that user's record is replaced by the merged update `ApplyUpdate` (given fields replace, missing fields keep) and returned; preserves unique emails |
| UserController.Database.DeleteUser | backend/Controllers/userController.js:40-49 | 404 and no change for an unknown id; otherwise only that record is removed, every other user is kept |
| UserController.Database.GetUser | backend/Controllers/userController.js:57-86 | 404 for an unknown id; for a known id always 200 with the password-free projection of the first user with that id |
| UserController.Database.GetAllUsers | backend/Controllers/userController.js:94-108 | 404 on an empty collection; for a non-empty one always 200 with an empty message and every user, in order, with its password cleared |
| AppointmentList.IsAppointmentNowIsHourBucket | frontend/src/Pages/user/UserAppoienments.jsx:58-67 | `IsAppointmentNow` holds exactly when `now` lies in the clock hour the appointment starts in (same day, same hour), i.e. in [`HourBucketStart`, `HourBucketStart` + 1 h) |
| AppointmentList.TenOClockExamples | frontend/src/Pages/user/UserAppoienments.jsx:58-67 | for 10:00: true at 10:00, 10:30, 10:59; false at 09:59, 11:00 and on another day |
| AppointmentList.ChatEnabledWindow | frontend/src/Pages/user/UserAppoienments.jsx:209-226 | `ChatButtonFor` gives an enabled chat button only for a confirmed appointment, and then exactly during its starting clock hour |
| AppointmentList.StatusColorsDistinct | frontend/src/Pages/user/UserAppoienments.jsx:75-88 | `StatusColor` gives the four known statuses four distinct, non-gray classes; every other string gets the gray default |
| AppointmentList.StatusLabel | frontend/src/Pages/user/UserAppoienments.jsx:204 | the badge text has the status's length, upper-cases the first character and keeps the rest |
| AppointmentList.InsertBy | frontend/src/Pages/user/UserAppoienments.jsx:44-54 | inserting an entry adds exactly that entry to the list's multiset |
| AppointmentList.InsertBySorted | frontend/src/Pages/user/UserAppoienments.jsx:44-54 | inserting into a list sorted by the key keeps it sorted |
| AppointmentList.SortBy | frontend/src/Pages/user/UserAppoienments.jsx:44-54 | the insertion sort returns a permutation of its input in non-decreasing key order |
| AppointmentList.SortByDate | frontend/src/Pages/user/UserAppoienments.jsx:43-55 | `sortedAppointments` is in non-decreasing date order and a permutation of the booked list (a new value; the input is untouched) |
| AppointmentList.TotalPages | frontend/src/Pages/user/UserAppoienments.jsx:69 | `totalPages` is the least `t` with `n <= 6t`: zero exactly for an empty list |
| AppointmentList.PageAtMostSix | frontend/src/Pages/user/UserAppoienments.jsx:70-73 | a `Page` (a `Slice` with `slice`'s negative-index and clamping rules) never holds more than six entries, for any page number |
| AppointmentList.PageEntriesComeFromList | frontend/src/Pages/user/UserAppoienments.jsx:70-73 | every entry on a page is an entry of the list |
| AppointmentList.PagesFromRest | frontend/src/Pages/user/UserAppoienments.jsx:69-73 | pages `p..totalPages` concatenated are the list from entry `6(p-1)` on |
| AppointmentList.PagesCoverList | frontend/src/Pages/user/UserAppoienments.jsx:69-73 | pages `1..totalPages` concatenated in order give back the sorted list |
| AppointmentList.PageSizes | frontend/src/Pages/user/UserAppoienments.jsx:69-73 | every page before the last is full, the last is non-empty, pages past the last are empty |
| AppointmentList.PageStepsStayInRange | frontend/src/Pages/user/UserAppoienments.jsx:291-311 | from a page in [1, totalPages], `PrevPage` (`max(1, p-1)`) and `NextPage` (`min(totalPages, p+1)`) move by at most one, stay in range, and stop only at the ends |
| AppointmentList.ToggleChatTwice | frontend/src/Pages/user/UserAppoienments.jsx:90-93 | `ToggleChat` applied twice for the same entry restores the panel state when it was closed or showed that entry |
| AppointmentList.ToggleChatTwiceFromOther | frontend/src/Pages/user/UserAppoienments.jsx:90-93 | when another entry's panel was open, one press switches to this entry and a second closes every panel |
| AppointmentList.TrimEmptyIffBlank | frontend/src/Pages/user/UserAppoienments.jsx:96 | `Trim` (`chatMessage.trim()`, JavaScript's white-space set) is empty exactly when the draft is white space only |
| AppointmentList.Appended | frontend/src/Pages/user/UserAppoienments.jsx:97-100 | the history gains the message at the end of `id`'s list (empty if absent); every other list and key is kept |
| AppointmentList.ListView.constructor | frontend/src/Pages/user/UserAppoienments.jsx:28-31 | the list starts on page 1 with no chat panel, an empty draft and an empty history |
| AppointmentList.ListView.Paginated | frontend/src/Pages/user/UserAppoienments.jsx:70-73 | the shown page holds at most six entries, all from the booked list |
| AppointmentList.ListView.Previous | frontend/src/Pages/user/UserAppoienments.jsx:293 | the page becomes `max(1, p-1)`; nothing else changes |
| AppointmentList.ListView.Next | frontend/src/Pages/user/UserAppoienments.jsx:305 | the page becomes `min(totalPages, p+1)`; nothing else changes |
| AppointmentList.ListView.HandleChat | frontend/src/Pages/user/UserAppoienments.jsx:90-93 | the open panel toggles between none and `id`, the draft is cleared, page and history are kept |
| AppointmentList.ListView.EditMessage | frontend/src/Pages/user/UserAppoienments.jsx:271 | the draft becomes the typed text; nothing else changes |
| AppointmentList.ListView.SendMessage | frontend/src/Pages/user/UserAppoienments.jsx:95-103 | a white-space-only draft changes nothing; otherwise the untrimmed draft is appended to `id`'s list, other lists are kept, and the draft is cleared |

## Left out

- The host time zone of JavaScript `Date`: a date and time are read as a wall clock in UTC.
- `new Date` string parsing (`userController.js:138`, `UserAppoienments.jsx:45-46, 60`) is not modelled: dates and times arrive as already-parsed fields, years 0 to 9999, so invalid or `NaN` dates cannot occur. `ParseDate` and `ParseTime` read only the canonical `YYYY-MM-DD` and `HH:MM` forms; JavaScript accepts more (for example `+002024-05-01`). The comparator's invalid-date branch (`UserAppoienments.jsx:48-51`) is therefore not modelled.
- SortByDate: proves date order and permutation only. It does not prove that entries with equal dates keep their original order (the stability of `Array.prototype.sort`), although inserting each entry before the first entry whose date is not earlier does keep it.
- StatusLabel: upper-cases ASCII letters only. JavaScript's `toUpperCase` also maps other letters, some to more than one character.
- The 500 "Server error" replies, `console` logging, `runValidators` and the extra `save()` after `create`: no failure of the store is modelled.
- Every request is atomic and requests run one after another. The race between the duplicate `findOne` and `create` across `await` is not modelled.
- Generated ids are naturals from a counter. `_id.toString() !== userId` is id inequality. An update with a field left out keeps the stored value.
- Appointment status: booking writes none (`userController.js:145-152`), so the backend appointment record here has no status field. The status the list reads (`UserAppoienments.jsx:203-209`) is set by code outside this model, both its value at creation (a schema default) and every later change (for example to `confirmed`).
- Status lifecycle, cancellation and rescheduling: the code implements none of them. The Cancel item has no handler and the reschedule dialog only closes. No status transitions are modelled.
- Rendering, context hooks, `fetchAppointment`, loading and error views, and the doctor-name lookup are not modelled. The rule that the chat panel renders only for the open entry in its live hour (`UserAppoienments.jsx:257`) is also left out.
- `frontend/src/Pages/Dashboard/admin/AdminSidebar.jsx` and `frontend/src/Pages/Dashboard/Layout.jsx` are not part of this model (navigation and layout only).
