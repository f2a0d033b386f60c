# Notifications, validators and dashboard statistics of the admin web application

This project models the client-side core of an Arabic-language administration web
application and proves properties of that model:

- **The notification surface** (`js/notifications.js`, module `Notifications`):
  - The `NotificationSystem` class keeps an ordered container of alerts. `show` appends an
    alert and schedules its removal after its duration and, in every case, after a
    5000 ms ceiling. `remove` starts a 300 ms fade and then detaches the alert if it is
    still attached.
  - The variants are the severity shortcuts, confirm (yes/no), prompt (a text field, Enter
    or Escape), progress alerts with an `update` handle, and the host ("system")
    notification.
  - Pure helpers: the icon table, the default titles of `showNotification`, and the
    decision of `requestNotificationPermission`.
  - Real time becomes a clock `now` plus a multiset of pending timer callbacks. `FireNext`
    runs an earliest one; `Elapse` lets time pass up to the next due timer.
  - The class invariant `Valid` says that every attached alert created by `show` still has
    its removals coming. From it, `NoAlertOutlivesDeadline` proves that no such alert stays
    attached past its deadline.
- **The validators** (`auth.js`, module `Auth`):
  - The e-mail pattern `^[^\s@]+@[^\s@]+\.[^\s@]+$`, characterised without regular
    expressions.
  - The four-check password strength score.
- **The dashboard** (`dashboard.js`, module `Dashboard`):
  - The six statistics `loadStats` counts from three query results, and its all-or-nothing
    assignment of `this.stats`.
  - The status labels, the activity icons and the relative-time phrase of `getTimeAgo`.
- **Shared modules:**
  - `Text`: ECMAScript white space, `trim`, and the decimal rendering of numbers in template
    literals.
  - `JsLookup`: the `table[key] || fallback` idiom, exactly as JavaScript evaluates it and as
    intended.
  - `Wrappers`: `Option`. An omitted argument is `None`, which stands for `undefined`: a
    default parameter applies only to it. An explicit `null` behaves like `None` only under
    the `!title` test of `showNotification` (js/notifications.js:267).

`confirm` and `prompt` call `show(..., 0)`, which reads as sticky, but the unconditional
ceiling at js/notifications.js:66-70 still removes them after five seconds. The model
follows the code (`Notifications.NotificationSystem.Confirm`, `Prompt`,
`NoAlertOutlivesDeadline`). Only `showProgress` alerts, which do not go through `show`,
stay until removed.

The duration passed to `show` reaches `setTimeout`, which converts it to a signed 32-bit
integer and treats a negative result as 0. The model applies the same conversion
(`Notifications.TimerDelay`): a duration whose value modulo 2^32 is 2^31 or more calls
`remove` at once, and the alert is detached 300 ms later.

## Model

| member | source | states |
|---|---|---|
| Text.TrimStart | js/notifications.js:167 | the result is a suffix of the input, everything cut is white space, and it does not start with white space |
| Text.TrimEnd | js/notifications.js:167 | the result is a prefix of the input, everything cut is white space, and it does not end with white space |
| Text.Trim | js/notifications.js:167 | `trim` never lengthens the text and leaves no white space at either end |
| Text.TrimSplit | js/notifications.js:167 | the input is exactly leading white space, then the trimmed text, then trailing white space |
| Text.TrimIdempotent | js/notifications.js:167 | trimming an already trimmed value changes nothing |
| Text.DecimalString | dashboard.js:346-348 | a count rendered in a template literal is a non-empty string of decimal digits without a leading zero |
| Text.DecimalRoundTrip | dashboard.js:346-348 | reading the rendered digits back gives the number rendered |
| JsLookup.PropertyOr | js/notifications.js:113 | `table[key] \|\| fallback` yields an inherited `Object.prototype` member exactly when the key is an inherited name with no own entry; otherwise the truthy own entry, or the fallback |
| JsLookup.OwnEmptyEntryHidesInherited | js/notifications.js:113 | an own falsy `""` entry under an inherited name hides the inherited member, so the fallback is read |
| JsLookup.LookupOr | js/notifications.js:113 | the intended lookup: the entry when there is one, otherwise the fallback |
| JsLookup.AgreeOffPrototype | js/notifications.js:113 | the lookup as written and the intended one agree on every key that is not an inherited name |
| JsLookup.DivergeOnPrototype | js/notifications.js:113 | on an inherited name without an own entry, the lookup as written yields no string at all |
| Notifications.GetIconAsWritten | js/notifications.js:106-114 | `getIcon` as written yields a non-string exactly for the inherited property names |
| Notifications.GetIconAsWrittenOnInheritedName | js/notifications.js:113 | for the type "constructor", `getIcon` as written returns an inherited function instead of an icon class |
| Notifications.GetIcon | js/notifications.js:106-114 | the bell icon is returned exactly for types outside the four severities, which get their own icons |
| Notifications.GetIconCases | js/notifications.js:106-114 | the four severity icons, and the bell for every other type |
| Notifications.DefaultTitle | js/notifications.js:266-275 | the generic title "إشعار" is chosen exactly for a type outside the four severities |
| Notifications.NotificationTitle | js/notifications.js:266-275 | a non-empty explicit title is kept; a missing or empty one becomes the type's default title |
| Notifications.NotificationTitleCases | js/notifications.js:266-275 | the four per-type default titles, "إشعار" otherwise; the chosen title is never empty |
| Notifications.RequestNotificationPermission | js/notifications.js:244-259 | "unsupported" exactly without the API; the host is asked exactly when the permission is undecided, and a decided permission is returned unchanged |
| Notifications.PermissionNeverAskedTwice | js/notifications.js:249-257 | once the user has decided, a later request returns that decision without asking again |
| Notifications.RaisesHostNotification | js/notifications.js:232-237 | a host notification is raised exactly when the API exists and the permission is granted |
| Notifications.KeyAction | js/notifications.js:180-183 | Enter and only Enter submits; Escape and only Escape cancels |
| Notifications.EscapeNeverReachesKeypress | js/notifications.js:180-183 | no key the host dispatches as `keypress` cancels, because Escape fires no `keypress`; the Escape branch is dead as written |
| Notifications.PromptResolution | js/notifications.js:166-175 | submit and only submit resolves with a value, never longer than the input; cancel resolves with `null` |
| Notifications.SubmittedValueIsTrimmed | js/notifications.js:166-169 | a submitted value has no white space at either end, is the input with only white space cut around it, and would be submitted unchanged again |
| Notifications.Settle | js/notifications.js:132-140 | resolving a promise records the value only if it has not settled yet, and touches no other promise |
| Notifications.SettleOnce | js/notifications.js:132-140 | a second resolution of the same promise changes nothing |
| Notifications.Find | js/notifications.js:67 | the position of an alert in the container, found exactly when it is attached (`parentNode`) |
| Notifications.WithoutAlert | js/notifications.js:78-82 | after `removeChild` the alert is no longer attached and every other alert remains |
| Notifications.WithoutAttachedAlert | js/notifications.js:80 | detaching an attached alert removes exactly that element and keeps the others in order |
| Notifications.WithoutAbsentAlert | js/notifications.js:79-81 | detaching an alert that is not attached changes nothing |
| Notifications.WithoutAlertIdempotent | js/notifications.js:76-83 | removing an alert twice has the effect of removing it once |
| Notifications.TimerDelay | js/notifications.js:60-63 | the delay `setTimeout` waits is a non-negative 31-bit value; it equals a requested duration below 2^31, and is 0 when the duration wraps to a negative 32-bit value |
| Notifications.TimerDelayWrapsAround | js/notifications.js:60-63 | a 2^31 ms duration fires at once, 2^32 + 1000 ms fires after one second, and the 5000 ms and 300 ms delays are kept |
| Notifications.RemovalDeadline | js/notifications.js:59-82 | an alert's deadline is at most 5300 ms after it was shown, at most its duration plus 300 ms for a duration below 2^31, and exactly 300 ms when the duration wraps to a negative delay |
| Notifications.NoAlertOutlivesDeadline | js/notifications.js:58-83 | under the surface invariant, no attached alert from `show` (confirm and prompt included) outlives its deadline |
| Notifications.ShowTimers | js/notifications.js:58-70 | `show` always schedules the 5000 ms ceiling, and schedules the duration timer, after `setTimeout`'s delay, exactly when the duration is positive; a duration below 2^31 is due after exactly that duration |
| Notifications.AppendKeepsInvariant | js/notifications.js:45-70 | appending a fresh alert together with its timers preserves the surface invariant |
| Notifications.AlertsAfter | js/notifications.js:60-82 | the duration and ceiling callbacks keep every alert in place and may only start the fade of their own alert; a finished fade detaches its alert when it is attached and otherwise changes nothing |
| Notifications.FollowUp | js/notifications.js:60-82 | a timer callback schedules nothing but the fade-out of its own alert |
| Notifications.FiringKeepsInvariant | js/notifications.js:58-83 | running an earliest pending callback preserves the surface invariant |
| Notifications.ApplyProgress | js/notifications.js:211-222 | `update` sets the fill width; the message changes if and only if a truthy new message is given and a message element exists, and then becomes that message; nothing else changes |
| Notifications.ApplyProgressRun | js/notifications.js:211-222 | a run of updates leaves a progress alert a progress alert |
| Notifications.ProgressRunEffect | js/notifications.js:211-222 | after any run of updates the fill shows the last progress; an alert created without a message never gains one |
| Notifications.PromptInput | js/notifications.js:160-167 | the text read on submit is the current value of that prompt's field |
| Notifications.NotificationSystem.constructor | js/notifications.js:5-16 | the surface starts with an empty container and no pending timers |
| Notifications.NotificationSystem.Show | js/notifications.js:28-73 | appends exactly one alert with the type's icon, schedules its removal timers, and preserves the invariant |
| Notifications.WithFade | js/notifications.js:78-82 | `remove` adds exactly one detach callback for its alert, due 300 ms later, and keeps every other pending timer |
| Notifications.NotificationSystem.Remove | js/notifications.js:76-83 | the alert starts fading and a detach 300 ms later is scheduled; nothing else changes |
| Notifications.NotificationSystem.Elapse | js/notifications.js:58-83 | time passes, but never beyond a pending callback's due time; nothing else changes |
| Notifications.NotificationSystem.EarliestPending | js/notifications.js:58-83 | the callback that runs next is one with the earliest due time |
| Notifications.NotificationSystem.Fire | js/notifications.js:58-83 | runs an earliest callback: the clock moves to its due time, and the container and timers change as that callback does |
| Notifications.NotificationSystem.FireNext | js/notifications.js:58-83 | one turn of the event loop: nothing happens exactly when no callback is pending; otherwise an earliest one runs |
| Notifications.NotificationSystem.ClearAll | js/notifications.js:188-190 | the container becomes empty; the scheduled callbacks remain and later find nothing to remove |
| Notifications.NotificationSystem.ShowSeverity | js/notifications.js:85-103 | `success`/`error`/`warning`/`info` show the severity's type with its default title unless one is given, for 5000 ms |
| Notifications.NotificationSystem.ShowNotification | js/notifications.js:266-277 | shows the message with the chosen type ("info" when omitted) and its title rule, for 5000 ms |
| Notifications.NotificationSystem.ShowSystemNotification | js/notifications.js:230-241 | always shows an in-page info alert; raises a host notification exactly when permission is granted |
| Notifications.NotificationSystem.Confirm | js/notifications.js:117-142 | an info alert with yes/no buttons, shown with duration 0, whose 5000 ms ceiling is still scheduled |
| Notifications.NotificationSystem.AnswerConfirm | js/notifications.js:132-140 | a click removes the confirmation and settles its promise with yes/no; nothing happens without such a confirmation |
| Notifications.NotificationSystem.Prompt | js/notifications.js:145-158 | an info alert with a text field holding the default value, shown with duration 0, whose ceiling is still scheduled |
| Notifications.NotificationSystem.EditPromptInput | js/notifications.js:152-160 | typing changes only that prompt's field |
| Notifications.NotificationSystem.AnswerPrompt | js/notifications.js:166-178 | submit or cancel removes the prompt and settles its promise with the trimmed text or `null` |
| Notifications.NotificationSystem.PromptKeyPress | js/notifications.js:180-183 | Enter submits and Escape cancels, each removing the prompt, scheduling its detach and settling its promise as a click would; any other key, or an id without a prompt, changes nothing |
| Notifications.NotificationSystem.ShowProgress | js/notifications.js:193-210 | appends an info alert with a spinner and an empty progress bar; a message element only for a non-empty message; no removal timers |
| Notifications.NotificationSystem.UpdateProgress | js/notifications.js:211-222 | the handle's `update` applies to its own alert only |
| Auth.PatternGivesShape | auth.js:7 | a string matching the pattern has no white space, exactly one `@`, and a dot strictly inside the part after it |
| Auth.ShapeGivesPattern | auth.js:7 | a string with that shape matches the pattern |
| Auth.ValidateEmailCharacterized | auth.js:6-9 | `validateEmail` holds exactly for strings without white space, with exactly one `@` not at the start, and a dot that is neither first nor last after it |
| Auth.ValidEmailExample | auth.js:6-9 | "a@b.com" is accepted |
| Auth.InvalidEmailExample | auth.js:6-9 | "not-an-email" is rejected |
| Auth.StrengthScore | auth.js:13-18 | the score is at most 4; it is 4 exactly when all four checks pass and 0 exactly when none does |
| Auth.CheckPasswordStrength | auth.js:12-23 | "strong" exactly when all four checks pass, "weak" exactly for a score of at most 1, "medium" exactly for 2 or 3 |
| Auth.ShortPasswordNeverStrong | auth.js:15-22 | a password shorter than 8 characters is never strong |
| Auth.ScoreMonotone | auth.js:15-18 | appending characters never lowers the score |
| Auth.StrengthMonotone | auth.js:15-22 | appending characters never lowers the strength level |
| Auth.PasswordStrengthExamples | auth.js:12-23 | sample levels, including an Arabic password whose letters count as symbols |
| Dashboard.Filter | dashboard.js:35-39 | `filter` keeps only accepted rows, each as often as in the input, and never more rows than given |
| Dashboard.FilterCountsPositions | dashboard.js:35-39 | the filtered length is the number of positions holding an accepted row |
| Dashboard.Total | dashboard.js:34-38 | a missing result set counts as 0 rows |
| Dashboard.Matching | dashboard.js:35-39 | a filtered count never exceeds its total, and is 0 for a missing result set |
| Dashboard.ComputeStats | dashboard.js:33-40 | active ≤ total projects, admins ≤ total users, completed ≤ total tasks; a missing result set gives 0 for both its figures |
| Dashboard.StatsCountRecords | dashboard.js:33-40 | each total is the number of rows, and each filtered figure is the number of rows with the matching field value |
| Dashboard.AggregateStats | dashboard.js:12-40 | statistics are produced exactly when none of the three queries reports an error |
| Dashboard.Dashboard.constructor | dashboard.js:3-6 | the dashboard starts without statistics |
| Dashboard.Dashboard.LoadStats | dashboard.js:9-52 | `this.stats` is replaced exactly when all three queries succeed and is otherwise unchanged; on any error the result is `null` and the error notification is shown, otherwise the new statistics are returned and no notification appears |
| Dashboard.GetStatusTextAsWritten | dashboard.js:315-323 | `getStatusText` as written yields a non-string exactly for the inherited property names |
| Dashboard.GetStatusTextAsWrittenOnInheritedName | dashboard.js:322 | for the status "constructor", `getStatusText` as written returns an inherited function instead of the status |
| Dashboard.GetStatusText | dashboard.js:315-323 | known statuses get their label, and any other status is returned unchanged |
| Dashboard.GetStatusTextCases | dashboard.js:315-323 | the four Arabic labels, and an unknown status passes through |
| Dashboard.GetActivityIconAsWritten | dashboard.js:325-335 | `getActivityIcon` as written yields a non-string exactly for the inherited property names |
| Dashboard.GetActivityIconAsWrittenOnInheritedName | dashboard.js:334 | for the type "constructor", `getActivityIcon` as written returns an inherited function instead of an icon class |
| Dashboard.GetActivityIcon | dashboard.js:325-335 | the history icon is returned exactly for types outside the six known ones, which get their own icons |
| Dashboard.GetActivityIconCases | dashboard.js:325-335 | the six icons, and the history icon for anything else |
| Dashboard.GetTimeAgo | dashboard.js:337-352 | an unparseable date (a `NaN` difference) falls through to the formatted date |
| Dashboard.GetTimeAgoBuckets | dashboard.js:341-351 | exactly one phrase per difference: "now" below one minute (future dates included), whole minutes 1-59, hours 1-23, days 1-6, the date from 7 days on; each number is the difference floor-divided by its unit |
| Dashboard.TimeAgoText | dashboard.js:346-351 | "الآن" for just now, the formatted date from seven days on, and otherwise "منذ " then decimal digits then the unit word for minutes, hours or days |
| Dashboard.TimeAgoTextShowsCount | dashboard.js:345-348 | the digits in a relative phrase read back as the number of whole units elapsed |

## Left out

- The notification sound (`initSound` and `play`): audio output. Its failure is swallowed, so it has no effect on the model.
- The HTML markup of alerts, the close button's `innerHTML`, and the injection of `title`, `message` and `defaultValue` into markup. An alert is a record of its fields, not markup.
- The constructor's lookup of an existing `.alerts-container`: the model starts from an empty container.
- `setTimeout`, the Promise machinery and focus handling. Timers are explicit pending callbacks; a settled promise is an entry in `answers`.
- The browser `Notification` constructor. The host is an abstract `Host` value, and the user's answer to `requestPermission` is a parameter.
- Notifications.NotificationSystem.ShowSystemNotification: assumes `new Notification` (js/notifications.js:233) does not throw. On hosts where the constructor throws ("Illegal constructor", as in Chrome on Android) the in-page alert of line 240 is never shown.
- Notifications.NotificationSystem.Show: the stored icon is the corrected lookup `GetIcon`. For a type naming an inherited `Object.prototype` member, the program renders that member into the icon class instead (see Findings; `GetIconAsWritten` models it). `ShowNotification` has its own line below.
- Notifications.NotificationSystem.ShowNotification: the stored icon is the corrected lookup `GetIcon`. For a caller-chosen type naming an inherited `Object.prototype` member, the program renders that member into the icon class instead (see Findings).
- Notifications.NoAlertOutlivesDeadline: assumes every timer fires when it is due, which `Elapse` encodes by never letting time pass a due timer. Real timers only promise a minimum delay, so a busy page can keep an alert attached longer.
- Notifications.NotificationSystem.ShowSeverity: an explicit `null` title (not `undefined`) is kept by the default parameter and rendered as the text "null"; `None` models only an omitted title. The same holds for `Confirm` and `Prompt`.
- The fade animation style set on an alert that is no longer attached (after `clearAll` or a detach). Only attached alerts are tracked.
- Notifications.NotificationSystem.UpdateProgress: `progress` is an integer; non-numeric values rendered into the width are not modelled.
- Auth.StrengthScore: the length check counts Unicode scalar values, not UTF-16 code units, so a password with characters outside the Basic Multilingual Plane can be shorter here than `password.length`.
- Auth.ValidateEmailCharacterized: the pattern is taken over Unicode scalar values rather than UTF-16 code units, which only differs for characters outside the Basic Multilingual Plane.
- The database queries of `loadStats`. Each query's `{ data, error }` is an input; so are the query order (a failing query stops the later ones, whose outcome then does not matter) and `console.error`.
- `updateStatsUI`: its text writes into the page are left out. Whether the three target elements exist is a parameter of `LoadStats`, because a missing element throws after `this.stats` has been assigned.
- `initCharts`, `updateCharts`, `loadRecentProjects`, `loadRecentActivity` and `loadSampleActivity`: chart configuration and HTML rendering.
- `Date` parsing, the clock and `toLocaleDateString('ar-SA')`. `getTimeAgo` takes the difference in milliseconds as input, and the formatted date as an opaque string.
- The lazy global singletons and the `window` exports.
- The authentication calls of `auth.js` (login, sign-up, sessions, profile updates): pass-throughs to the database client and page redirects.

## Findings

| source | as written | input that shows it | evidently intended | confidence | as-written member | corrected member |
|---|---|---|---|---|---|---|
| js/notifications.js:180-183 | the prompt listens for `keypress`, and Escape fires no `keypress` | pressing Escape in the prompt's field: the handler never runs, so the prompt is not cancelled | Escape cancels the prompt, as with a `keydown` listener | not executed | Notifications.EscapeNeverReachesKeypress | Notifications.KeyAction |
| js/notifications.js:113 | `icons[type] \|\| 'fas fa-bell'` reads inherited `Object.prototype` members | type "constructor" yields the `Object` function, not an icon class | the bell icon for every type outside the table | not executed | Notifications.GetIconAsWrittenOnInheritedName | Notifications.GetIcon |
| dashboard.js:322 | `statusMap[status] \|\| status` reads inherited `Object.prototype` members | status "constructor" yields the `Object` function, not the status text | the status itself for every status outside the table | not executed | Dashboard.GetStatusTextAsWrittenOnInheritedName | Dashboard.GetStatusText |
| dashboard.js:334 | `iconMap[type] \|\| 'fas fa-history'` reads inherited `Object.prototype` members | type "constructor" yields the `Object` function, not an icon class | the history icon for every type outside the table | not executed | Dashboard.GetActivityIconAsWrittenOnInheritedName | Dashboard.GetActivityIcon |
