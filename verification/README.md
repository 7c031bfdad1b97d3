# Smart door lock: lock-state engine and command handlers

A Dafny model of the core of a small networked door-lock service (a Flask
application over MySQL). One door has three records: a status (locked or
not, and the instant of the last transition), a configuration (auto-lock
delay and a daily lock/unlock schedule) and an activity log that only grows.

- `clock.dfy` (module `Clock`): the minute of the day of an instant and its
  zero-padded `"HH:MM"` text, which is what `strftime('%H:%M')` produces.
- `request.dfy` (module `Request`): request bodies as JSON values, and the
  two Python conversions the handlers apply, `int(v)` (whitespace, an
  optional sign, digits grouped by single underscores) and `bool(v)`.
- `settings.dfy` (module `Settings`): the configuration record, the default
  record that `init_db` writes, and the parse-with-defaults of `PUT /config`.
- `engine.dfy` (module `Engine`): the rules as functions on a value
  `DoorState`. These are the lock and unlock transitions, the auto-lock
  rule, the schedule rule and evaluation, and the lock, unlock and
  config-update commands. Next to them are the audit invariant `Consistent`
  (the last successful log entry tells whether the door is locked and when
  it last changed) and the lemmas about the rules.
- `door.dfy` (module `DoorLock`): class `Door`. Its fields are updated in
  place, the log is a `seq` that only grows, and each method follows its
  handler step by step. Every handler method keeps `Consistent`, and every
  method is proved to reach the state the matching `Engine` function gives.
- `analytics.dfy` (module `Analytics`): the hourly activity report loop,
  parameterised by how an action text is classified.

The clock is an injected integer `now` in whole seconds, read once per
operation. Evaluation is lazy, as in the service: auto-lock and schedule
fire only when a status request arrives.

Three behaviours of the code that a reader might expect otherwise:
- `POST /door/lock` and `POST /door/unlock` do not run the evaluation first.
  They apply their transition directly.
- A negative auto-lock delay is accepted and stored. Any delay of zero or
  less disables auto-lock.
- A delay that fails `int()` is converted before the store is opened, so
  nothing is written and the old record stays. The service reports this as a
  server error (500), not as a validation error.

## Model

| member | source | states |
|---|---|---|
| `Clock.HHMM` | app.py:206-207 | the current time is rendered as a well-formed "HH:MM" text naming the current minute of the day |
| `Clock.HHMMMatches` | app.py:207-217 | a configured time equals the rendered clock exactly when it is a well-formed "HH:MM" naming the current minute, so a malformed time never matches |
| `Clock.SameTextSameMinute` | app.py:207 | two instants render to the same text exactly when they fall in the same minute of the day |
| `Request.ParseIntTextOfIntText` | app.py:348 | `int()` of a decimal text, with optional surrounding whitespace, gives back the number, negative numbers included |
| `Request.ParseIntTextRejects` | app.py:348 | `int()` refuses the empty text, a unit suffix, doubled or leading underscores, a space after the sign and a decimal point |
| `Settings.EmptyBodyGivesInitialConfig` | app.py:348-351 | an empty update body stores the same record `init_db` writes (30, off, "22:00", "06:00"), stamped with the update time |
| `Settings.MissingFieldsTakeDefaults` | app.py:348-351 | each field missing from the body takes its default, and the record is stamped with the update time |
| `Settings.DelayDecidesRefusal` | app.py:348 | the update is refused as an invalid delay exactly when a delay is given and `int()` of it fails |
| `Settings.TimesStoredVerbatim` | app.py:350-351 | lock and unlock time texts are stored exactly as sent, with no format check |
| `Settings.DelayTextAccepted` | app.py:348 | a delay given as decimal text is stored as the number it spells, with no range check (negative delays accepted) |
| `Settings.ScheduleSwitchIsTruthiness` | app.py:349 | the schedule switch uses Python truthiness: the text "false" turns it on, while null, 0, "" and false turn it off |
| `Engine.Evaluate` | app.py:171-224 | evaluation never changes the configuration, only appends to the log (at most two entries, all successful, stamped now), and changes nothing when it logs nothing |
| `Engine.RequestUnlock` | app.py:252-272 | the reply is success exactly when the PIN is the text "1234"; then the door is unlocked, stamped now and one `unlock (manual)` is logged; otherwise the status is untouched and exactly one failed `unlock (fail)` is logged |
| `Engine.UpdateConfig` | app.py:342-379 | the update succeeds exactly when parsing does, and then stores the parsed record; otherwise the old record stays; status and log are never touched |
| `Engine.InitialConsistent` | app.py:72-88 | the initial state (locked, empty log) satisfies the audit invariant |
| `Engine.EvaluateConsistent` | app.py:183-220 | evaluation keeps the status and the log in agreement |
| `Engine.RequestLockConsistent` | app.py:236-244 | a manual lock keeps the status and the log in agreement |
| `Engine.RequestUnlockConsistent` | app.py:257-272 | an unlock attempt, right or wrong, keeps the status and the log in agreement |
| `Engine.UpdateConfigConsistent` | app.py:342-370 | a configuration update keeps the status and the log in agreement |
| `Engine.UnlockedOnlyByPinOrSchedule` | app.py:156-165 | in any consistent state an unlocked door was last unlocked by a manual or a scheduled unlock |
| `Engine.AutoLockRule` | app.py:188-199 | the first entry an evaluation logs is `lock (auto)` exactly when the door is unlocked, the delay is positive and the idle time strictly exceeds it; when it is the only entry, the door ends locked and stamped now |
| `Engine.NonPositiveDelayNeverAutoLocks` | app.py:192 | a delay of zero or less never produces an auto-lock, however long the door has been idle |
| `Engine.QuietEvaluation` | app.py:183-205 | with the schedule off and no auto-lock due, evaluation changes nothing |
| `Engine.ScheduleShape` | app.py:188-220 | lists every log suffix one evaluation can produce, with the exact condition for each entry; the schedule check sees the state after auto-lock |
| `Engine.ScheduleLockOnlyAtItsMinute` | app.py:205-214 | a `lock (schedule)` entry implies the schedule is on, the door was unlocked and not auto-locked, the lock time is a well-formed text naming the current minute, and the door ends locked |
| `Engine.ScheduleUnlockOnlyAtItsMinute` | app.py:216-220 | a `unlock (schedule)` entry implies the schedule is on, the door was locked when the schedule rule ran, the unlock time names the current minute, and the door ends unlocked |
| `Engine.AtMostTwoTransitions` | app.py:195-220 | one evaluation logs at most two transitions, and two only as `lock (auto)` then `unlock (schedule)`; the two schedule branches never both fire |
| `Engine.ScheduleLockDoesNotRefire` | app.py:209-214 | at the lock minute an unlocked door ends locked, and a second evaluation in the same minute changes nothing when lock and unlock times differ |
| `Engine.EqualTimesToggle` | app.py:209-220 | when lock and unlock times are the same text, each evaluation in that minute flips the door |
| `Engine.LastAccessMonotone` | app.py:145-165 | while the clock does not go backwards, the last-access time never decreases under evaluation, lock or unlock |
| `Engine.RepeatedLocksLogEach` | app.py:236-244 | n manual locks leave the door locked and add exactly n `lock (manual)` entries, in order, whatever the prior state |
| `Engine.WrongPinShapes` | app.py:254-257 | the PIN is compared as text: the number 1234, " 1234" and a missing PIN are rejected, "1234" is accepted |
| `Engine.EndToEndAutoRelock` | app.py:72-88 | from a fresh installation: a correct-PIN unlock, then a status request more than 30 s later, leave the door locked with `unlock (manual)`, `lock (auto)` in the log |
| `DoorLock.Door.constructor` | app.py:72-88 | the door starts locked, with the default configuration and an empty log, and satisfies the invariant |
| `DoorLock.Door.PerformLock` | app.py:145-154 | sets locked and last access to now and appends one successful entry, leaving the configuration alone |
| `DoorLock.Door.PerformUnlock` | app.py:156-165 | clears locked, sets last access to now and appends one successful entry, leaving the configuration alone |
| `DoorLock.Door.Evaluate` | app.py:171-224 | the in-place evaluation reaches exactly `Engine.Evaluate` of the old state, keeps the invariant and returns the stored status |
| `DoorLock.Door.RequestLock` | app.py:236-249 | the in-place manual lock reaches exactly `Engine.RequestLock` of the old state and keeps the invariant |
| `DoorLock.Door.RequestUnlock` | app.py:252-272 | the in-place unlock attempt reaches exactly `Engine.RequestUnlock` of the old state, with the same reply, and keeps the invariant |
| `DoorLock.Door.UpdateConfig` | app.py:342-379 | the in-place update reaches exactly `Engine.UpdateConfig` of the old state and keeps the invariant |
| `Analytics.ActivityByHour` | app.py:398-405 | returns 24 lines, hours 0 to 23 in order; each line holds the summed counts its hour's rows contribute to the locks and unlocks tallies |
| `Analytics.SubstringBucketNeverUnlocks` | app.py:401-404 | with the test as written, no action text is ever tallied under unlocks |
| `Analytics.SubstringReportHasNoUnlocks` | app.py:398-405 | so the report as written shows zero unlocks in every hour, for every log |
| `Analytics.UnlockTalliedAsLock` | app.py:401-402 | as written, a successful `unlock (manual)` is tallied as a lock |
| `Analytics.SubstringBucketAllLocks` | app.py:401-402 | as written, every action text the service logs is tallied under locks |
| `Analytics.PrefixBucketSeparates` | app.py:523-526 | classifying by the leading word puts every lock action under locks and every unlock action under unlocks |
| `Analytics.PrefixReportAccountsForAll` | app.py:398-405 | with leading-word classification, each hour's locks plus unlocks equal all counted entries of that hour |

## Findings

| source | as written | input that shows it | evidently intended | confidence | as-written member | corrected member |
|---|---|---|---|---|---|---|
| app.py:401-404 | `'lock' in action` is tested before `'unlock' in action`, and every unlock text contains "lock" | a successful `unlock (manual)` row is tallied under "locks"; the "unlocks" tally is 0 for every hour | unlock actions tallied under "unlocks", as the total-counts report does with `LIKE 'unlock%'` / `LIKE 'lock%'` | high; not executed | `Analytics.UnlockTalliedAsLock` | `Analytics.PrefixBucketSeparates` |

`Analytics.ActivityByHour` takes the classification as a parameter. With
`SubstringBucket` it is the report as written. With `PrefixBucket` it is the
corrected report.

## Left out

- Database plumbing is not modelled: connections, cursors, commits,
  `CREATE TABLE` and the `ALTER TABLE` migration. The three records are the
  fields of `Door`. Only the default values `init_db` inserts are kept.
- Store failures are not modelled: a failed connection (500), a status
  write whose log write fails, and a missing status or config row. A missing
  row makes `GET /door/status` fail with an uncaught `TypeError` (a generic
  500); in the lock, unlock and config handlers the `UPDATE` then matches no
  row and the handler still replies success, lock and unlock still logging
  an entry. The 404 of `GET /door/status` is reachable only when the status
  row disappears between a transition and its re-read. Here both rows always
  exist, every store operation succeeds, and each transition's status write
  and log append happen together.
- `log_activity` swallows its own errors and uses a separate connection.
  The model treats the append as infallible.
- HTTP routing, JSON responses, CORS and status codes are not modelled.
  Replies are the tags `UnlockReply` (success or 401) and `saved` (success
  or 500).
- A request body that is not a JSON object is not modelled. Python fails
  with an uncaught error before any state changes.
- Reading the log, `GET /config` and the health check are not modelled.
  They are read-only queries and a connectivity probe.
- Some analytics are not modelled: daily activity, unlocked duration,
  threats and total counts. The grouped SQL query behind the hourly report
  is left out too; its rows are the input of `Analytics.ActivityByHour`.
- Each handler reads the clock several times. The model reads it once, as
  one integer `now` in whole seconds. Sub-second precision, the float
  `total_seconds()` comparison and time zones are not modelled.
- Concurrent requests are not modelled. The model is sequential.
- Request.ParseIntTextOfIntText: does not model CPython's limit on the
  length of decimal text `int()` accepts (4300 digits by default,
  `sys.int_info.default_max_str_digits`). Beyond it Python raises
  `ValueError` and `PUT /config` replies 500, while the model parses any
  length; such a delay would not fit the store's `INT` column either.
- Floating-point JSON numbers are not modelled (`int(3.7)` truncates in
  Python). `int()` is modelled on ASCII text only: no Unicode digits or
  Unicode whitespace.
- Column widths and ranges belong to the store: `VARCHAR(5)` time columns,
  the `INT` delay, the `VARCHAR(20)` action. What MySQL does with values
  that do not fit depends on its SQL mode, so the model has no limit there.
- Time values sent as numbers or booleans are stored as the database
  connector renders them. Arrays and objects are treated as refused by the
  store.
