# Guest-account provisioning: a verified model

This project models the core of a Wi-Fi guest-account manager. An
administrator creates temporary guest accounts and lists, updates,
deactivates and deletes them. Each account has a derived login name, a
bcrypt-hashed password and an expiry computed from a duration in months,
days, hours, minutes and seconds.

Three source files form the core:

- `backend/controllers/guestUserController.js` holds the HTTP handlers.
  They are modelled as the class `GuestStore.GuestTable` over an in-memory
  `guest_users` table (`map<nat, GuestRow>` plus the next auto-increment id).
  Each handler is a method that returns the response it sends (`Outcome`:
  status code and payload). The methods are proved against pure reference
  functions: `CreateRejection`, `UpdateRejection`, `NewGuest`, `Patched`,
  `OwnedBelow` and `SortNewestFirst`. Every method also preserves the table
  invariant: ids are keys below the counter, times are normalised and
  usernames are unique. The expiration object's validation loop and
  `addExpiration` live in module `Expiration`. A JavaScript `Date` is the
  class `Calendar.Date`, whose setters normalise overflowing fields the way
  ECMAScript does. The username helper lives in module `Username`.
- `frontend/src/utils/index.js` is modelled in module `Utils`: expiry and
  status, the status colours, the two regular expressions (each decided in
  one pass and proved equal to the pattern read as a shape), truncation,
  password generation and `addDaysToDate`.
- `frontend/src/components/UserForm.jsx` is modelled as the class
  `UserForm.Form`. It covers the component's state, the submit guard, what a
  submission sends to `onCreateUser` and how the form resets or shows an
  error. It also includes the username preview and its agreement with the
  backend's derivation.

Module `Text` supplies the JavaScript string operations the core uses: the
`\s` class, `trim` and `split`. `Wrappers` supplies `Option`.

Every external effect is a parameter:

- the database's success or failure (`lookupFails`, `insertFails`,
  `queryFails`, `updateFails`, `deleteFails`);
- the clock (`now`);
- bcrypt's random salt (`salt`);
- the e-mail service's verdict (`emailSent`);
- `Math.random` (`draws`, one alphabet position per character);
- the answer of `onCreateUser` (`result`).

Behaviours of the code that are easy to misread, and that the model keeps:

- `isExpired` compares with a strict `<`, so an account is not yet expired
  at the exact instant of its expiry (`Utils.ExpiryIsStrict`).
- `generateGuestUsername` does not fail when the domain has no '.'. The whole
  domain (up to a second '@') becomes the suffix. It fails only when there is
  no '@', and the resulting exception becomes a 500 response.
- A missing `baseUsername` is not rejected: the template literal prints it
  as "undefined", so the account is named `undefined_<prefix>`.
- Responses carry only the columns their SELECT names: no password hash and
  no `created_by` (`GuestView`), and after an update only id, username,
  creation time, expiry and active flag (`UpdatedView`).
- The backend generates the username from the authenticated admin's address
  (`req.admin.email`), not from the `adminEmail` the form sends.

## Model

| member | source | states |
|---|---|---|
| Text.Trim | frontend/src/components/UserForm.jsx:22 | `trim` returns a contiguous slice of the text with only white space before and after it; it is empty exactly when the text is all white space, and otherwise it neither starts nor ends with white space |
| Text.Split | backend/controllers/guestUserController.js:7-8 | `split` with one separator: the first piece runs up to the first separator, there is one piece exactly when the separator is absent, and no piece contains the separator |
| Text.JoinSplit | backend/controllers/guestUserController.js:7-8 | joining the pieces of a split with the separator gives back the original string |
| Username.GenerateGuestUsername | backend/controllers/guestUserController.js:6-10 | the name exists exactly when the admin address has an '@' (otherwise the source throws), and it starts with the base name followed by '_' |
| Username.UsernameIsBaseAndDomainPrefix | backend/controllers/guestUserController.js:6-10 | the name is `base_p` exactly when `p` is the text after the first '@' up to the next '.' or '@' or the end; so the name is fixed by the base name and the domain prefix |
| Username.DerivedPrefixIsCut | backend/controllers/guestUserController.js:7-8 | the text the two splits pick out sits right after the first '@' and stops at a '.', an '@' or the end |
| Username.ExampleDomainPrefix | backend/controllers/guestUserController.js:7-8 | the domain prefix of a@sub.example.com is sub |
| Username.DerivationExample | backend/controllers/guestUserController.js:6-10 | a@sub.example.com with base bob gives bob_sub |
| Calendar.NextDay | backend/controllers/guestUserController.js:93 | the next calendar day at the same time of day is normalised and has day number one higher, across month and year ends |
| Calendar.PrevDay | backend/controllers/guestUserController.js:93 | the previous calendar day at the same time of day is normalised and has day number one lower |
| Calendar.AddDays | backend/controllers/guestUserController.js:93 | moving by n days, forward or back, keeps the time of day and moves the day number by exactly n |
| Calendar.WithMonth | backend/controllers/guestUserController.js:92 | `setMonth` gives a normalised time with the same time of day, whatever month number (overflowing or negative) it is given |
| Calendar.WithMonthDayNumber | backend/controllers/guestUserController.js:92 | after `setMonth`, the day lies `date - 1` days after the first day of the requested month, so a day past the month's end spills into the next month |
| Calendar.WithDate | backend/controllers/guestUserController.js:93 | `setDate` gives a normalised time with the same time of day for any day number |
| Calendar.WithHours | backend/controllers/guestUserController.js:94 | `setHours` gives a normalised time for any hour count |
| Calendar.WithMinutes | backend/controllers/guestUserController.js:95 | `setMinutes` gives a normalised time for any minute count |
| Calendar.WithSeconds | backend/controllers/guestUserController.js:96 | `setSeconds` gives a normalised time for any second count |
| Calendar.WithDateTimeValue | backend/controllers/guestUserController.js:93 | `setDate(getDate() + n)` moves the time value by exactly n days |
| Calendar.AtSecondOfDayTimeValue | backend/controllers/guestUserController.js:94-96 | setting the time of day to second x gives the time value x seconds after that day's midnight, carrying whole days into the date |
| Calendar.WithHoursTimeValue | backend/controllers/guestUserController.js:94 | `setHours(getHours() + n)` moves the time value by exactly n hours |
| Calendar.WithMinutesTimeValue | backend/controllers/guestUserController.js:95 | `setMinutes(getMinutes() + n)` moves the time value by exactly n minutes |
| Calendar.WithSecondsTimeValue | backend/controllers/guestUserController.js:96 | `setSeconds(getSeconds() + n)` moves the time value by exactly n seconds |
| Calendar.MonthStartIncreasing | backend/controllers/guestUserController.js:92 | later months, counted past year ends, start on later days |
| Calendar.WithMonthForward | backend/controllers/guestUserController.js:92 | `setMonth(getMonth() + n)` with n > 0 lands on a strictly later day, even when the day of the month spills over |
| Calendar.WithMonthLater | backend/controllers/guestUserController.js:92 | `setMonth(getMonth() + n)` with n > 0 gives a strictly later time value |
| Calendar.LaterDayLaterTime | frontend/src/utils/index.js:49 | at equal times of day, comparing two Dates orders them as their calendar days |
| Calendar.Date.At | backend/controllers/guestUserController.js:91 | `new Date(date)` holds the given normalised time |
| Calendar.Date.SetMonth | backend/controllers/guestUserController.js:92 | the Date now holds the `setMonth` result and stays normalised |
| Calendar.Date.SetDate | backend/controllers/guestUserController.js:93 | the Date now holds the `setDate` result and stays normalised |
| Calendar.Date.SetHours | backend/controllers/guestUserController.js:94 | the Date now holds the `setHours` result and stays normalised |
| Calendar.Date.SetMinutes | backend/controllers/guestUserController.js:95 | the Date now holds the `setMinutes` result and stays normalised |
| Calendar.Date.SetSeconds | backend/controllers/guestUserController.js:96 | the Date now holds the `setSeconds` result and stays normalised |
| Expiration.Rank | backend/controllers/guestUserController.js:70 | each unit has its position in the list `['months', 'days', 'hours', 'minutes', 'seconds']` |
| Expiration.ValidateDuration | backend/controllers/guestUserController.js:70-87 | the validation loop returns exactly the reference verdict: the first unit that is not a non-negative integer, else no positive unit, else accepted |
| Expiration.CheckAcceptsIff | backend/controllers/guestUserController.js:70-87 | a duration is accepted if and only if every unit reads as a non-negative integer and at least one is positive |
| Expiration.CheckNamesFirstInvalid | backend/controllers/guestUserController.js:72-79 | the 400 message names unit u exactly when u is invalid and every unit before it in source order is valid |
| Expiration.CheckWhenAllValid | backend/controllers/guestUserController.js:80-87 | when all units are valid, the verdict depends only on whether some unit is positive |
| Expiration.AllZeroRejected | backend/controllers/guestUserController.js:82-87 | a duration whose units are all missing or zero is rejected with "at least one non-zero value" |
| Expiration.ShiftMonths | backend/controllers/guestUserController.js:92 | the month step keeps the time normalised |
| Expiration.ShiftDays | backend/controllers/guestUserController.js:93 | the day step keeps the time normalised |
| Expiration.ShiftHours | backend/controllers/guestUserController.js:94 | the hour step keeps the time normalised |
| Expiration.ShiftMinutes | backend/controllers/guestUserController.js:95 | the minute step keeps the time normalised |
| Expiration.ShiftSeconds | backend/controllers/guestUserController.js:96 | the second step keeps the time normalised |
| Expiration.ExpirationFrom | backend/controllers/guestUserController.js:90-98 | the expiry addExpiration computes is a normalised time |
| Expiration.AddExpiration | backend/controllers/guestUserController.js:90-98 | addExpiration returns a fresh Date (the argument is copied, not moved) holding the reference expiry of the base time |
| Expiration.ApplyMonths | backend/controllers/guestUserController.js:92 | `if (exp.months) d.setMonth(...)` moves the Date by the month step and nothing else |
| Expiration.ApplyDays | backend/controllers/guestUserController.js:93 | `if (exp.days) d.setDate(...)` moves the Date by the day step |
| Expiration.ApplyHours | backend/controllers/guestUserController.js:94 | `if (exp.hours) d.setHours(...)` moves the Date by the hour step |
| Expiration.ApplyMinutes | backend/controllers/guestUserController.js:95 | `if (exp.minutes) d.setMinutes(...)` moves the Date by the minute step |
| Expiration.ApplySeconds | backend/controllers/guestUserController.js:96 | `if (exp.seconds) d.setSeconds(...)` moves the Date by the second step |
| Expiration.ShiftDaysTimeValue | backend/controllers/guestUserController.js:93 | the day step adds exactly `days` × 86 400 000 ms |
| Expiration.ShiftHoursTimeValue | backend/controllers/guestUserController.js:94 | the hour step adds exactly `hours` × 3 600 000 ms |
| Expiration.ShiftMinutesTimeValue | backend/controllers/guestUserController.js:95 | the minute step adds exactly `minutes` × 60 000 ms |
| Expiration.ShiftSecondsTimeValue | backend/controllers/guestUserController.js:96 | the second step adds exactly `seconds` × 1000 ms |
| Expiration.ExpirationTimeValue | backend/controllers/guestUserController.js:90-98 | the expiry is the month-shifted base plus fixed amounts for days, hours, minutes and seconds; only the month step depends on the calendar |
| Expiration.ShiftMonthsForward | backend/controllers/guestUserController.js:92 | a positive month count moves the time strictly forward, and a zero or missing one leaves it unchanged |
| Expiration.AcceptedExpirationIsLater | backend/controllers/guestUserController.js:63-99 | every duration the validation accepts yields an expiry strictly after its base time |
| Expiration.JanuaryThirtyFirstNextMonth | backend/controllers/guestUserController.js:92 | `setMonth(1)` on 31 January 2024 gives 2 March 2024 (February spill-over) |
| Expiration.OneMonthFromJanuary31 | backend/controllers/guestUserController.js:90-98 | one month from 31 January 2024 expires on 2 March 2024 |
| Expiration.WithDateInMonth | backend/controllers/guestUserController.js:93 | `setDate` to a day that fits the month only changes the day |
| Expiration.MonthsThenDays | backend/controllers/guestUserController.js:90-98 | one month and one day from 31 January 2024 give 3 March 2024 |
| Expiration.DaysThenMonthsDiffers | backend/controllers/guestUserController.js:92-93 | applying the day before the month would give 1 March instead, so the source's unit order matters |
| GuestStore.CreateRejection | backend/controllers/guestUserController.js:28-112 | createGuestUser's early answers, each stated under the checks before it passing, in source order: missing text fields get 400; then no '@' in the admin address gets 500; then a failed lookup 500 "Database error"; a taken name 409 (exactly then); a missing password (bcrypt throws) 500; a missing or non-object expiration 400 "Expiration object is required."; a rejected duration 400 with that verdict's message; a failed insert 500. No rejection happens exactly when every check passes |
| GuestStore.NewGuest | backend/controllers/guestUserController.js:89-105 | the inserted row is named `base_p` for the admin's domain prefix p, carries a bcrypt hash of the password at 12 rounds, the request's name, e-mail and phone, belongs to the admin, is active, created now, and expires exactly at `addExpiration(now, expiration)`, a normalised time that lies after now whenever the duration was accepted |
| GuestStore.DurationRejectedAlike | backend/controllers/guestUserController.js:63-87 | create and update validate a duration with the same loop: a duration that one rejects the other rejects with the same 400 message |
| GuestStore.NewExpiry | backend/controllers/guestUserController.js:219-253 | an update writes an expiry exactly when a duration or an `expiresAt` is given; a given duration wins over `expiresAt` and the expiry is `addExpiration(now, duration)`, counted from now and not from the old expiry; without a duration the explicit `expiresAt` is used |
| GuestStore.UpdatedExpiryIsLater | backend/controllers/guestUserController.js:219-257 | an accepted duration in an update always moves the expiry to a moment after now, whatever the old expiry or an explicit `expiresAt` |
| GuestStore.Patched | backend/controllers/guestUserController.js:210-271 | a successful update changes only `is_active` and `expires_at`, each to the supplied value when one is given, and keeps the old value otherwise |
| GuestStore.UpdateRejection | backend/controllers/guestUserController.js:190-278 | updateGuestUser's early answers are 400, 404 or 500, in source order: a failed lookup gets 500 "Database error"; then a row the admin does not own 404; then a rejected duration 400 with that verdict's message; "No valid fields" exactly when the row is owned and nothing is supplied; then a failed write 500. The update goes ahead exactly when the lookup works, the row is owned, something is supplied, a given duration is accepted and the write succeeds |
| GuestStore.OwnedBelow | backend/controllers/guestUserController.js:153-159 | `WHERE created_by = ?` over the ids below n: each row of the admin exactly once, nothing else |
| GuestStore.InsertByCreation | backend/controllers/guestUserController.js:157 | inserting a row into a newest-first list keeps it newest-first and adds exactly that row |
| GuestStore.PrependNewest | backend/controllers/guestUserController.js:157 | a row no older than the head can go in front of a newest-first list |
| GuestStore.SortNewestFirst | backend/controllers/guestUserController.js:157 | `ORDER BY created_at DESC`: the result is a permutation of the input, newest first |
| GuestStore.InsertKeepsInvariant | backend/controllers/guestUserController.js:102-105 | inserting a row under the next id with an unused username keeps ids, timestamps and usernames consistent |
| GuestStore.ReplaceKeepsInvariant | backend/controllers/guestUserController.js:268-271 | rewriting a row's mutable fields keeps the table invariant |
| GuestStore.GuestTable.CreateGuestUser | backend/controllers/guestUserController.js:22-147 | the answer is the reference rejection with the table untouched. Otherwise it is 201 with the re-selected columns of the new row (fresh id, derived name, full name, e-mail, phone, created now, expiring at the reference expiry, active; no hash and no owner), the plain password and the e-mail verdict, and exactly that row is added. The new expiry lies after `now`, and the table invariant is kept |
| GuestStore.GuestTable.InsertGuest | backend/controllers/guestUserController.js:89-138 | after the checks pass: a failed insert answers 500 and changes nothing; otherwise the row is added under the next id and its expiry lies after `now` |
| GuestStore.GuestTable.GetGuestUsers | backend/controllers/guestUserController.js:149-182 | a failed query gives 500; otherwise the list is the selected columns of every row the admin created, each exactly once and no other row, newest first |
| GuestStore.GuestTable.UpdateGuestUser | backend/controllers/guestUserController.js:184-301 | the answer is the reference rejection with the table untouched; otherwise only the target row changes, to the patched row, whose id, username, creation time, expiry and active flag are returned. The table invariant is kept |
| GuestStore.GuestTable.DeleteGuestUser | backend/controllers/guestUserController.js:303-353 | 500 on a failed lookup, 404 for a row the admin does not own, 500 on a failed delete, each leaving the table as it was; otherwise exactly that row is removed |
| GuestStore.GuestTable.ToggleGuestUserStatus | backend/controllers/guestUserController.js:355-418 | as written: every call answers 500 "Internal server error", and the table is not modified |
| GuestStore.GuestTable.ToggleGuestUserStatusIntended | backend/controllers/guestUserController.js:373-409 | without the stray mail options: 500, 404 and 500 as in the source, otherwise the row's flag is negated, the new value returned and nothing else changes |
| GuestStore.RequestedExpiry | backend/controllers/guestUserController.js:219-253 | the duration's verdict (accepted when none is given) and, when accepted, the expiry the update writes, computed from `now` |
| GuestStore.AssignActiveThenExpiry | backend/controllers/guestUserController.js:211-257 | the `updates` list applied in order sets exactly the supplied flag and expiry |
| GuestStore.AssignAllAppend | backend/controllers/guestUserController.js:268-270 | applying two assignment lists one after the other is applying their concatenation |
| Utils.IsExpired | frontend/src/utils/index.js:48-50 | expired exactly when the expiry falls on an earlier calendar day than now, or on the same day at an earlier time of day |
| Utils.GetUserStatus | frontend/src/utils/index.js:53-57 | 'expired' exactly when expired; 'inactive' exactly when not expired and inactive; 'active' exactly when not expired and active |
| Utils.ExpiryIsStrict | frontend/src/utils/index.js:48-50 | an account is not expired at the instant of its expiry, and once expired it stays expired |
| Utils.NewGuestIsActive | frontend/src/utils/index.js:53-57 | a freshly created account shows as 'active' at its creation time |
| Utils.GetStatusColor | frontend/src/utils/index.js:60-71 | one of the three class lists; the active one exactly for 'active', the expired one exactly for 'expired', the inactive one for everything else |
| Utils.IsValidEmail | frontend/src/utils/index.js:23-26 | true exactly when the address matches `^[^\s@]+@[^\s@]+\.[^\s@]+$` read as a shape |
| Utils.IsValidAdminEmail | frontend/src/utils/index.js:35-38 | true exactly when the address matches `^[^\s@]+@[^\s@]+\.[^\s@]+$` read as a shape |
| Utils.EmailScanMatchesPattern | frontend/src/utils/index.js:23-26 | the one-pass check of isValidEmail agrees with the pattern on every string, in both directions |
| Utils.ValidEmailHasShape | frontend/src/utils/index.js:23-26 | an accepted address splits into local part, '@', name, '.', rest, all free of white space and '@' |
| Utils.ShapedEmailIsValid | frontend/src/utils/index.js:23-26 | every address of that shape is accepted |
| Utils.IsValidAdminPassword | frontend/src/utils/index.js:29-32 | true exactly when the password is one or more ASCII letters, an '@', then one or more digits |
| Utils.AdminPasswordScanMatchesPattern | frontend/src/utils/index.js:29-32 | the check at the first '@' agrees with `^[a-zA-Z]+@\d+$` on every string, in both directions |
| Utils.TruncateText | frontend/src/utils/index.js:107-110 | text within the limit comes back unchanged; longer text becomes its first `maxLength` characters (none for a negative limit) followed by "..." |
| Utils.TruncateIdempotent | frontend/src/utils/index.js:107-110 | truncating a truncated text changes nothing |
| Utils.GeneratePassword | frontend/src/utils/index.js:13-20 | the loop produces 12 characters, all from the alphabet, each the one its draw picks |
| Utils.EveryPasswordPossible | frontend/src/utils/index.js:13-20 | every 12-character string over the alphabet is produced by some draws |
| Utils.AddDaysToDate | frontend/src/utils/index.js:41-45 | a fresh Date n calendar days away at the same time of day (exactly n × 86 400 000 ms later); the argument is not changed |
| UserForm.GetDomainPrefix | frontend/src/components/UserForm.jsx:54-59 | 'domain' when the admin address has no '@'; otherwise the text after the first '@' up to the next '.' or a second '@' (so "a@b@c.d" gives "b") |
| UserForm.UsernamePreview | frontend/src/components/UserForm.jsx:150-153 | the "Will create" line shows exactly when the base name is non-empty; without an '@' in the admin address it reads `base_domain` |
| UserForm.PreviewIsBackendUsername | frontend/src/components/UserForm.jsx:150-153 | with an '@' in the admin address, the preview equals the name the backend derives from the same base name |
| UserForm.CreatedNameIsPreviewIffTrimmed | frontend/src/components/UserForm.jsx:27-35 | since the form submits the trimmed base name, the created account's name equals the preview exactly when the base name had no surrounding white space |
| UserForm.DefaultExpirationIsFourteenDays | frontend/src/components/UserForm.jsx:12 | the default expiration passes the backend's check and expires exactly 14 days after creation |
| UserForm.SubmissionIsFilled | frontend/src/components/UserForm.jsx:22-35 | name, e-mail and phone that are not all white space stay non-empty once trimmed, so the submission built from them passes the backend's required-field check |
| UserForm.Form.constructor | frontend/src/components/UserForm.jsx:5-14 | all text fields empty, 14 days of expiration, not submitting, no error |
| UserForm.Form.CanSubmitIffNoBlankField | frontend/src/components/UserForm.jsx:22 | the guard passes exactly when none of the five fields is empty or all white space |
| UserForm.Form.SubmitDisabled | frontend/src/components/UserForm.jsx:256 | the button is disabled exactly while submitting or when some field is blank, which is when the guard refuses |
| UserForm.Form.HandleGeneratePassword | frontend/src/components/UserForm.jsx:16-18 | the password field takes the generated 12-character password; nothing else changes |
| UserForm.Form.HandleSubmit | frontend/src/components/UserForm.jsx:20-52 | refused by the guard: nothing is sent and nothing changes. Whatever is sent passes the backend's required-field check. Otherwise the trimmed fields, the expiration and the admin address are sent; success clears the form, and failure shows the error and keeps what was entered |
| UserForm.Form.Reset | frontend/src/components/UserForm.jsx:37-47 | every field empty, the expiration back at 14 days, not submitting |
| UserForm.Form.ShowError | frontend/src/components/UserForm.jsx:48-51 | the error is shown, submission ends, and the entered values stay |

## Findings

| source | as written | input that shows it | evidently intended | confidence | as-written member | corrected member |
|---|---|---|---|---|---|---|
| backend/controllers/guestUserController.js:366-371 | toggleGuestUserStatus builds a mail-options object from `userData.email`, and no `userData` exists in that scope; the ReferenceError is caught and answered with 500 | any call, e.g. the owning admin toggling an active guest whose lookup succeeds: the answer is 500 "Internal server error" and `is_active` stays true | check ownership (500 / 404), flip `is_active`, answer "User activated/deactivated successfully" with the new value | high (not executed) | GuestStore.GuestTable.ToggleGuestUserStatus | GuestStore.GuestTable.ToggleGuestUserStatusIntended |

## Left out

- The database is an in-memory table. SQL text and the `updated_at` column are not modelled. The re-select after insert and update returns the columns it names from the row just written (`GuestView`, `UpdatedView`). Ids come from a counter starting at 1, `created_at` is the request time and `is_active` starts true, as the schema's defaults are assumed to make them. Rows with equal `created_at` may come back in any order; the model's sort keeps one particular order.
- Concurrency: the check-then-insert race between two creations with the same username is not modelled. Requests run one at a time, so the model keeps usernames unique.
- bcrypt is symbolic (`BcryptHash(plain, rounds, salt)`), with the random salt a parameter. A missing password, which makes bcrypt throw, is modelled as the 500 it produces.
- The e-mail service (backend/services/emailService.js) is not part of this model; its verdict is the parameter `emailSent`.
- The HTTP layer is not modelled: request parsing, JSON bodies, `console.error` logging and how form fields map onto a `CreateRequest` (given by `UserForm.AsCreateRequest`). Values that arrive as strings are modelled by what `Number(v || 0)` makes of them (`Falsy`, `Integer`, `NotInteger`).
- An `expiresAt` string that does not parse as a date (an Invalid Date) is not modelled; an explicit `expiresAt` is a normalised local time.
- Dates: time zones, daylight saving, the ±8.64e15 ms range of a Date and millisecond rounding are not modelled; local time is one uniform time line.
- Strings are sequences of code points; `length`, `substr` and `trim` on UTF-16 surrogate pairs are not modelled.
- The backend's own `generatePassword` (guestUserController.js:13-20) is never called and is the same loop as the frontend's; only the frontend copy is modelled (`Utils.GeneratePassword`). `Math.random` becomes the draws.
- `formatDate`, `formatFileSize`, `debounce` and `copyToClipboard` in frontend/src/utils/index.js are not modelled: they are locale formatting, floating point, timers and the clipboard.
- UserForm.jsx: the JSX markup, the per-unit expiration inputs (each holds `Number(e.target.value)`) and the 500 ms `setTimeout` before the reset are not modelled. `UserForm.Form.HandleSubmit` states the state after the reset has happened.
- UserForm.Form.HandleSubmit: `onCreateUser` runs outside the form; its answer is the parameter `result`, and the moment in between, when the form is submitting, is not stated.
