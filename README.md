# Attendance management front end — a verified model

This project models the client-side logic of a school attendance system's
React front end: the admin dashboard views (attendance report, levels and
sections, teachers, password change, PIN screen) and the kiosk screens
(opening PIN pad, PIN update, period attendance form). Each screen is one
Dafny module. A component's React state is a class whose fields the handler
methods update, with `modifies` frames naming exactly the state each handler
may touch. The four-slot PIN buffers are arrays, and so are the ten period
rows. Requests to the server become return values, and the server's answers
become parameters.

Shared modules:

- `Common` holds `Option`, the `Outcome` of a check chain, and an
  order-preserving `Filter` with the lemmas the views' filters use.
- `Strings` models the JavaScript string operations the screens call:
  `trim` (with ECMAScript's white-space and line-terminator set), `split` on
  one character, `join`, ASCII `toLowerCase`, `includes`, and the
  `/^[0-9]*$/` test.
- `PinPad` holds what the two PIN screens share: the focus rule, the empty
  buffer, and the joined PIN.

Instants are milliseconds since the epoch. "The start of the day" is taken
in UTC.

## Model

| member | source | states |
|---|---|---|
| Common.Filter | src/Components/Admin/Dashboard/AttendanceReport.jsx:61-67 | `Array.prototype.filter`: the result is a subsequence of the input, an element is kept iff it is in the input and satisfies the predicate, and each kept element occurs exactly as often as in the input |
| Common.FilterKeepsAll | src/Components/Admin/Dashboard/AttendanceReport.jsx:61-67 | a predicate that holds for every element keeps the whole list |
| Common.FilterKeepsNone | src/Components/Admin/Dashboard/AttendanceReport.jsx:61-67 | a predicate that holds for no element keeps nothing |
| Common.FilterAgrees | src/Components/Admin/Dashboard/AttendanceReport.jsx:109-113 | two predicates that agree on every element filter a list identically |
| Common.RemoveAt | src/Components/Admin/Dashboard/Teacher.jsx:94 | removing position i keeps length minus one, the entries before i in place and the entries after i shifted down by one |
| Common.RemoveAtMultiset | src/Components/Admin/Dashboard/Teacher.jsx:94 | removing one entry takes exactly that entry out of the list's multiset of entries |
| Strings.Trim | src/Components/Admin/Dashboard/LevelAndSection.jsx:49 | `trim` yields a string with no white space at either end |
| Strings.TrimKeepsOnlyCharsOf | src/Components/Admin/Dashboard/LevelAndSection.jsx:55 | every character of a trimmed string occurs in the original |
| Strings.TrimBlankIff | src/Components/Admin/Dashboard/LevelAndSection.jsx:49 | `s.trim() === ''` iff every character of s is white space |
| Strings.TrimOfTrimmed | src/Components/Admin/Dashboard/LevelAndSection.jsx:55 | trimming a string without surrounding white space returns it unchanged |
| Strings.TrimSkipsLeadingWhitespace | src/Components/Admin/Dashboard/LevelAndSection.jsx:116 | a leading white-space character makes no difference to the trimmed result |
| Strings.ToLower | src/Components/Admin/Dashboard/AttendanceReport.jsx:110-111 | lower-casing keeps the length and leaves no ASCII capital letter |
| Strings.ToLowerIdempotent | src/Components/Admin/Dashboard/AttendanceReport.jsx:110-111 | lower-casing twice is lower-casing once |
| Strings.Contains | src/Components/Admin/Dashboard/AttendanceReport.jsx:110-111 | `includes`: text that contains another is at least as long as it (the window characterisation is `ContainsIffWindow`) |
| Strings.ContainsIffWindow | src/Components/Admin/Dashboard/AttendanceReport.jsx:110-111 | `includes` holds iff the text occurs at some position |
| Strings.ContainsEmpty | src/Components/Admin/Dashboard/AttendanceReport.jsx:110-111 | every string includes the empty string |
| Strings.Split | src/Components/Admin/Dashboard/LevelAndSection.jsx:55 | `split` on a character gives one more piece than there are separators, and no piece contains the separator |
| Strings.Join | src/Components/Admin/Dashboard/LevelAndSection.jsx:105 | `join`: the result is as long as all pieces together plus one separator between each two neighbours |
| Strings.JoinSplit | src/Components/Admin/Dashboard/LevelAndSection.jsx:55 | joining the pieces of a split with the same separator gives back the text |
| Strings.SplitWithoutSeparator | src/Components/Admin/Dashboard/LevelAndSection.jsx:116 | text without the separator splits into itself alone |
| Strings.SplitAfterHead | src/Components/Admin/Dashboard/LevelAndSection.jsx:116 | a separator-free head followed by the separator splits into the head and then the pieces of the rest |
| AttendanceReport.Midnight | src/Components/Admin/Dashboard/AttendanceReport.jsx:62-65 | the start of an instant's day is a multiple of a day, not after the instant, and less than a day before it |
| AttendanceReport.FilterByDateRange | src/Components/Admin/Dashboard/AttendanceReport.jsx:60-69 | keeps exactly the rows whose check-in day lies between the range's bounds, both included, in their order, each as often as it occurs in the fetched rows |
| AttendanceReport.MidnightBoundsAreWholeDays | src/Components/Admin/Dashboard/AttendanceReport.jsx:60-69 | with midnight bounds, a row matches iff it was checked in from the start day up to the end of the end day |
| AttendanceReport.MultiplesApart | src/Components/Admin/Dashboard/AttendanceReport.jsx:65-66 | two different day starts are at least a day apart |
| AttendanceReport.SingleDayRange | src/Components/Admin/Dashboard/AttendanceReport.jsx:60-69 | the range [d, d] keeps day d and drops the days before and after |
| AttendanceReport.InstantRangeKeepsNothing | src/Components/Admin/Dashboard/AttendanceReport.jsx:21-27 | the initial range [now, now] keeps no row unless now is exactly midnight |
| AttendanceReport.Search | src/Components/Admin/Dashboard/AttendanceReport.jsx:108-115 | keeps exactly, in order, the rows whose lower-cased teacher and level both include the lower-cased search texts, each as often as it occurs in the fetched rows |
| AttendanceReport.MatchesSearchIffOccurs | src/Components/Admin/Dashboard/AttendanceReport.jsx:109-113 | a row matches iff both search texts occur at some position of its fields |
| AttendanceReport.EmptySearchKeepsAll | src/Components/Admin/Dashboard/AttendanceReport.jsx:108-115 | empty search boxes keep every row |
| AttendanceReport.SearchIgnoresCase | src/Components/Admin/Dashboard/AttendanceReport.jsx:108-115 | search texts that differ only in letter case give the same result |
| AttendanceReport.PageCount | src/Components/Admin/Dashboard/AttendanceReport.jsx:118 | `Math.ceil(n / 5)`: the fewest pages of five that hold n rows |
| AttendanceReport.PageAccepted | src/Components/Admin/Dashboard/AttendanceReport.jsx:118 | the guard of `paginate`: the page number lies between 1 and the page count; characterised by `PageAcceptedIffPageHasRows` |
| AttendanceReport.PageAcceptedIffPageHasRows | src/Components/Admin/Dashboard/AttendanceReport.jsx:117-121 | the page guard accepts a page number iff that page holds at least one row |
| AttendanceReport.NoPageBeyondFirstWithinOnePage | src/Components/Admin/Dashboard/AttendanceReport.jsx:38-42 | the view holds at most the five rows the request asks for, so no page past the first is ever accepted |
| AttendanceReport.ReportView.constructor | src/Components/Admin/Dashboard/AttendanceReport.jsx:17-30 | initial state: no rows, empty searches, page 1, range [now, now] |
| AttendanceReport.ReportView.FetchData | src/Components/Admin/Dashboard/AttendanceReport.jsx:35-55 | the query carries the current page, limit 5 and the range; a status-200 array reply fills both lists, and any other outcome empties both |
| AttendanceReport.ReportView.FilterDataByDateRange | src/Components/Admin/Dashboard/AttendanceReport.jsx:60-69 | the shown list becomes the date filter of all fetched rows |
| AttendanceReport.ReportView.HandleDateChange | src/Components/Admin/Dashboard/AttendanceReport.jsx:96-106 | records the range and filters by it |
| AttendanceReport.ReportView.SetSearchTeacher | src/Components/Admin/Dashboard/AttendanceReport.jsx:133-134 | the teacher search box's value becomes the search text |
| AttendanceReport.ReportView.SetSearchLevel | src/Components/Admin/Dashboard/AttendanceReport.jsx:146-147 | the level search box's value becomes the search text |
| AttendanceReport.ReportView.HandleSearch | src/Components/Admin/Dashboard/AttendanceReport.jsx:108-115 | the shown list becomes the search over all fetched rows, discarding any date filtering |
| AttendanceReport.ReportView.Paginate | src/Components/Admin/Dashboard/AttendanceReport.jsx:117-121 | the page changes only to a page number between 1 and the page count; with no rows it never changes |
| LevelAndSection.TrimAll | src/Components/Admin/Dashboard/LevelAndSection.jsx:55 | `map(trim)`: same length, each entry trimmed |
| LevelAndSection.ParseSections | src/Components/Admin/Dashboard/LevelAndSection.jsx:55 | one entry per comma plus one, each trimmed and comma-free |
| LevelAndSection.TrimAllKeepsCommasOut | src/Components/Admin/Dashboard/LevelAndSection.jsx:55 | trimming comma-free pieces leaves them comma-free |
| LevelAndSection.ParseSectionsPieces | src/Components/Admin/Dashboard/LevelAndSection.jsx:81 | each piece between commas becomes its trimmed self, blank pieces included, and the pieces rejoin to the input |
| LevelAndSection.ParseAfterHead | src/Components/Admin/Dashboard/LevelAndSection.jsx:116 | a clean name followed by ", " parses as that name followed by the rest's entries |
| LevelAndSection.EditSaveRoundTrip | src/Components/Admin/Dashboard/LevelAndSection.jsx:105-116 | section names joined with ", " for editing parse back to the same names, when they are trimmed, comma-free and at least one |
| LevelAndSection.EmptySectionListSavesOneBlank | src/Components/Admin/Dashboard/LevelAndSection.jsx:105-116 | a level with no sections is saved back with one empty section name |
| LevelAndSection.EditedLevelId | src/Components/Admin/Dashboard/LevelAndSection.jsx:73 | `levels[editingIndex]?._id` is present iff the index is set and in range, and is that level's id |
| LevelAndSection.LevelEditor.constructor | src/Components/Admin/Dashboard/LevelAndSection.jsx:27-33 | initial state: no levels, empty inputs, nothing being edited |
| LevelAndSection.LevelEditor.FetchLevels | src/Components/Admin/Dashboard/LevelAndSection.jsx:35-42 | a reply replaces the list, a reply without data empties it, and a failed fetch keeps it |
| LevelAndSection.LevelEditor.HandleAddLevel | src/Components/Admin/Dashboard/LevelAndSection.jsx:48-70 | a blank name or section list sends nothing; otherwise it sends the name with the parsed sections, and success clears both inputs |
| LevelAndSection.LevelEditor.HandleAddAdditionalSections | src/Components/Admin/Dashboard/LevelAndSection.jsx:72-94 | a blank input sends nothing; otherwise it sends the parsed sections for the edited level's id, and success clears the input |
| LevelAndSection.LevelEditor.HandleEditLevel | src/Components/Admin/Dashboard/LevelAndSection.jsx:96-107 | an index in range opens that level with its sections joined by ", " and clears the extra-sections input; any other index changes nothing |
| LevelAndSection.LevelEditor.HandleSaveEdit | src/Components/Admin/Dashboard/LevelAndSection.jsx:109-130 | a blank name sends nothing; otherwise it sends the name with the parsed sections for the edited level's id, and success ends editing |
| LevelAndSection.LevelEditor.HandleDeleteLevel | src/Components/Admin/Dashboard/LevelAndSection.jsx:132-147 | a delete is sent iff the index is in range, for that level's id |
| LevelAndSection.LevelEditor.HandleDeleteSection | src/Components/Admin/Dashboard/LevelAndSection.jsx:149-174 | a delete is sent iff both indices are in range, for that section name |
| LevelAndSection.EditThenSave | src/Components/Admin/Dashboard/LevelAndSection.jsx:96-130 | editing a level and saving at once sends back its own id, name and sections |
| Teacher.Rename | src/Components/Admin/Dashboard/Teacher.jsx:62-64 | only the entry at the index gets the new name; its id and every other entry are kept |
| Teacher.AdjustEditingIndex | src/Components/Admin/Dashboard/Teacher.jsx:89-99 | corrected delete: the edited index is dropped when its row is deleted and shifted down when an earlier row is deleted |
| Teacher.AdjustedIndexKeepsTarget | src/Components/Admin/Dashboard/Teacher.jsx:89-99 | after the corrected delete, the edited index still designates the same teacher unless that teacher was deleted |
| Teacher.DeleteBeforeEditedShiftsTarget | src/Components/Admin/Dashboard/Teacher.jsx:89-99 | as written, deleting an earlier row leaves the edited index on a different teacher, or past the end of the list |
| Teacher.TeacherManager.constructor | src/Components/Admin/Dashboard/Teacher.jsx:27-29 | initial state: no teachers, empty name, nothing being edited |
| Teacher.TeacherManager.FetchTeachers | src/Components/Admin/Dashboard/Teacher.jsx:31-42 | a reply replaces the list (`data \|\| []`), and a failed fetch keeps it |
| Teacher.TeacherManager.HandleChange | src/Components/Admin/Dashboard/Teacher.jsx:44-47 | the input's value becomes the form's name |
| Teacher.TeacherManager.HandleSubmit | src/Components/Admin/Dashboard/Teacher.jsx:49-82 | a blank name or a stale edit index sends nothing; an edit sends an update for that id, and success renames that entry only, ends editing and clears the form; otherwise a create is sent, and success appends the server's teacher |
| Teacher.TeacherManager.HandleEdit | src/Components/Admin/Dashboard/Teacher.jsx:84-87 | the row's name fills the form and its index becomes the edited one |
| Teacher.TeacherManager.HandleDeleteAsWritten | src/Components/Admin/Dashboard/Teacher.jsx:89-99 | a delete is sent for the row's id, and success removes exactly that row; the edited index is left as it was |
| Teacher.TeacherManager.HandleDelete | src/Components/Admin/Dashboard/Teacher.jsx:89-99 | as above, and success also moves the edited index with its teacher |
| ChangePassword.CheckPasswordChange | src/Components/Admin/ChangePassword.jsx:30-48 | accepted iff all three fields are filled, the new password has at least 8 characters, equals the confirmation and differs from the current one; each error holds iff the checks before it passed and it failed |
| ChangePassword.AcceptedConfirmationIsNewPassword | src/Components/Admin/ChangePassword.jsx:35-48 | an accepted confirmation equals the new password, has at least 8 characters and differs from the current password |
| ChangePassword.FailureNotice | src/Components/Admin/ChangePassword.jsx:71-77 | a failure shows the authorization message iff the response status is 401, and the generic message otherwise |
| ChangePassword.PasswordForm.constructor | src/Components/Admin/ChangePassword.jsx:10-15 | initial state: empty fields, all hidden |
| ChangePassword.PasswordForm.TogglePasswordVisibility | src/Components/Admin/ChangePassword.jsx:17-25 | flips only the flag that the field name selects; any other name changes nothing |
| ChangePassword.PasswordForm.HandleSubmit | src/Components/Admin/ChangePassword.jsx:27-78 | a failed check is reported and sends nothing; success clears all three fields; a failed request keeps them and reports the failure |
| UpdatePin.CheckPinChange | src/Components/Attendance/UpdatePin.jsx:12-39 | accepted iff the new PIN is all digits, the old PIN is non-empty, the new PIN has length 4 and differs from the old; each error holds iff the checks before it passed and it failed |
| UpdatePin.AcceptedPinIsFourDigits | src/Components/Attendance/UpdatePin.jsx:12-39 | an accepted new PIN is exactly four decimal digits, and the old PIN is non-empty and different |
| UpdatePin.CodeUnit | src/Components/Attendance/UpdatePin.jsx:60 | `String.fromCharCode` reduces its argument modulo 2^16 |
| UpdatePin.KeyAllowed | src/Components/Attendance/UpdatePin.jsx:57-65 | a keystroke (`keyCode`, falling back to `which` when it is 0) is let through iff the character it produces is a decimal digit |
| UpdatePin.PinChangeForm.constructor | src/Components/Attendance/UpdatePin.jsx:7-8 | initial state: both fields empty |
| UpdatePin.PinChangeForm.HandleChangePin | src/Components/Attendance/UpdatePin.jsx:10-55 | reports the check result; only acceptance clears both fields |
| Attendance.WithField | src/Components/Attendance/Attendance.jsx:29 | the named field of a row takes the value, and the other two keep theirs |
| Attendance.WithSameValueIsIdentity | src/Components/Attendance/Attendance.jsx:26-32 | writing a field's own value back changes nothing |
| Attendance.LaterWriteWins | src/Components/Attendance/Attendance.jsx:26-32 | of two writes to the same field, the later one wins |
| Attendance.PeriodAttendance.constructor | src/Components/Attendance/Attendance.jsx:6-16 | initial state: empty date, level and section, and exactly 10 empty period rows |
| Attendance.PeriodAttendance.HandleChange | src/Components/Attendance/Attendance.jsx:18-24 | only the named form field changes |
| Attendance.PeriodAttendance.HandlePeriodChange | src/Components/Attendance/Attendance.jsx:26-32 | only the named field of the named row changes; the number of rows, the other rows and the other fields stay |
| Attendance.PeriodAttendance.HandleSubmit | src/Components/Attendance/Attendance.jsx:34-46 | accepted iff date, level and section are all non-empty, whatever the periods hold |
| PinPad.EmptySlots | src/Components/Admin/PinManagement.jsx:13 | four slots, all empty |
| PinPad.NextFocus | src/Components/Admin/PinManagement.jsx:30-34 | focus moves forward after a non-empty value below the last slot and back after an emptied slot above the first; otherwise it stays, always among the four slots |
| PinPad.TypingFourDigitsEndsOnLastSlot | src/Components/Attendance/Opening.jsx:28-32 | typing one character into each slot from the first leaves the focus on the last |
| PinPad.Pin | src/Components/Admin/PinManagement.jsx:38 | `pins.join('')`: the PIN is as long as all slots together |
| PinPad.PinEmptyIff | src/Components/Admin/PinManagement.jsx:38-39 | the joined PIN is empty iff every slot is empty |
| PinPad.PinOfDigits | src/Components/Admin/PinManagement.jsx:21-28 | slots of digits join into a PIN of digits |
| PinPad.PinLengthWithSingleCharSlots | src/Components/Attendance/Opening.jsx:36-37 | with at most one character per slot, the PIN is no longer than the slot count, and reaches it iff every slot is filled |
| PinPad.FullPinIffAllSlotsFilled | src/Components/Attendance/Opening.jsx:36-40 | on one-character inputs, the length check passes iff all four slots are filled |
| PinManagement.PinEntry.constructor | src/Components/Admin/PinManagement.jsx:13-18 | four empty slots, the first one focused |
| PinManagement.PinEntry.HandleChange | src/Components/Admin/PinManagement.jsx:20-35 | a value with a non-digit changes nothing; otherwise only that slot changes and the focus follows the rule; four digit-only slots are kept |
| PinManagement.PinEntry.HandleSubmit | src/Components/Admin/PinManagement.jsx:37-57 | an empty PIN sends nothing; status 200 validates; anything else resets the four slots to empty and focuses the first |
| Opening.ExpiryTime | src/Components/Attendance/Opening.jsx:11-46 | the stored expiry is 604800000 ms (seven days) after the storage time |
| Opening.ExpiredAt | src/Components/Attendance/Opening.jsx:53-54 | the immediate check: the current time is past the stored expiry; characterised by `ExpiredIffPastSevenDays` |
| Opening.ExpiredIffPastSevenDays | src/Components/Attendance/Opening.jsx:53-58 | the stored PIN is removed at once iff the check comes more than seven days after storage, so within seven days never |
| Opening.PinEntry.constructor | src/Components/Attendance/Opening.jsx:16-21 | four empty slots, the first one focused |
| Opening.PinEntry.HandleChange | src/Components/Attendance/Opening.jsx:23-33 | any value is taken; only that slot changes, and the focus follows the rule |
| Opening.PinEntry.HandleSubmit | src/Components/Attendance/Opening.jsx:35-69 | a PIN under four characters sends nothing; status 200 stores the expiry and removes it if already past; anything else resets the four slots and focuses the first |

## Left out

- Network requests, toasts, navigation and `localStorage` are not modelled as effects. A request is a returned value, the server's answer is a parameter, and the opening screen's stored record is reduced to its expiry field.
- The SHA-256 hashing of the stored PIN (CryptoJS) is a foreign library and is left out.
- `Date.now()` and `new Date()` are parameters. Day boundaries are taken in UTC rather than the browser's local time zone.
- `toLowerCase` is modelled on ASCII letters only. String lengths count characters, not UTF-16 code units.
- React's asynchronous state batching and effect ordering are not modelled; each handler sees the state as it was when called.
- The refreshes that the level handlers start after a success are separate `FetchLevels` calls in the model.
- The authorization token read by the password form comes from a module that is not part of this model.
- The `maxLength={1}` attribute of the PIN inputs is a browser constraint, not code. The handlers take any value, and the one-character case appears only as a lemma premise.
- The PIN screens' `focus` field records the slot the component last focused itself. Focus the user moves by clicking or tabbing is not tracked, so after a click elsewhere the field can differ from the slot the browser has focused.
- `handleSearch` is defined in the report view, but no control in its markup calls it.
- The report's file export and the markup's inline `onChange` setters are left out, apart from the search boxes.
- `Array.isArray(level.sectionNames)` always holds in the model, because `Level.sectionNames` is a sequence.
- Attendance.PeriodAttendance.HandleChange: the field name is one of date, level and section. The source would also add a key for any other input name, but no such input exists.
- Attendance.PeriodAttendance.HandlePeriodChange: does not model that the shallow copy shares the row object with the previous state.
- Teacher.TeacherManager.HandleSubmit: does not model that the rename also mutates the row object of the previous state.
- Teacher.TeacherManager.HandleEdit, LevelAndSection.LevelEditor.HandleEditLevel: an index outside the list changes nothing. In the Teacher source it would throw, but the buttons only pass indices of listed rows.
- Attendance.PeriodAttendance.HandlePeriodChange, PinManagement.PinEntry.HandleChange, Opening.PinEntry.HandleChange: require an index in range, which the rendered rows and slots always pass.

## Findings

| source | as written | input that shows it | evidently intended | confidence | as-written member | corrected member |
|---|---|---|---|---|---|---|
| src/Components/Admin/Dashboard/Teacher.jsx:89-99 | `handleDelete` removes the row but leaves `editingIndex` unchanged, so a later submit updates `teachers[editingIndex]`, which is now a different teacher or past the end | teachers [A, B, C]; edit row 1 (B); delete row 0 (A); submit renames C instead of B | the edited index follows its teacher, or editing ends when that teacher is deleted | not executed | Teacher.DeleteBeforeEditedShiftsTarget | Teacher.AdjustedIndexKeepsTarget |
