# Bus tracker session core in Dafny

This project models the in-memory core of a college bus tracker. Drivers start and stop a ride session and publish their position. Students watch the session's status and its live location. A scheduler opens a session on its own every morning except on Sundays and holidays.

The modelled parts are:

- **Session store** (`SessionService`, `src/services/sessionService.js`). The store holds at most one active session, the status listeners and the location listeners. It is an immutable `Store` record. Each operation returns a `Step`: the new store, a result or a thrown error, and the listener calls in the order they are made. Listeners are `Callback` identities. A live-location subscription is a wrapper with its own handle, and it delivers only while the active session's id equals the ride id it was made for.
- **Auto-session scheduler** (`ScheduleService`, `src/services/scheduleService.js`). It covers the window predicate, one tick of `checkAndStartAutoSession` with its once-per-day latch, and the countdown `getMinutesUntilAutoSession`. The clock readings are parameters:
  - hour, minute, weekday and the latch date are local time;
  - the holiday test reads the UTC date.
- **Driver-code validator** (`DriverCodes`, `src/config/driverCodes.js`). The code is trimmed, upper-cased, then looked up in a fixed list.
- **Holiday calendar** (`Holidays`, `src/config/holidays.js`). It covers membership of a `YYYY-MM-DD` string, and the next `count` holidays on or after today under JavaScript string order.
- **Driver login handlers** (`DriverLogin`, `src/components/DriverLogin.jsx`). `startRide` and `stopRide` act as a gate over a `(sessionActive, rideId, stored ride id)` state. `Remount` models the component mounting again after the map, reading the ride id back from `localStorage`.
- **Student dashboard** (`StudentTracks`, `src/components/StudentTracks.jsx`). It has its own window predicate, maps session snapshots to dashboard state, and decides the redirect and the banner.

The supporting modules are:

- Wrappers: `Option`, and `Result` for a call that may throw.
- JsValue: JavaScript values, truthiness and property reads, so that a missing property reads as `undefined`.
- JsString: ASCII `trim`, ASCII `toUpperCase`, string `<`, and decimal digit strings.

Several facts about the code as written are stated and proved:

- A start overwrites any active session, with no conflict check.
- `stopRideSession` takes no argument, so callers that pass a ride id have it ignored.
- The start reply carries `id` but no `rideId`. Both the driver page and the scheduler read `rideId`, so the stored ride id is the text "undefined".
- Two starts in the same millisecond get the same id.
- The scheduler trusts its caller's `currentSessionActive` flag. A stale flag lets it replace a running session.
- The dashboard's window includes 9:00 while the scheduler's excludes it.
- The dashboard's window ignores holidays.

## Model

| member | source | states |
|---|---|---|
| `JsString.Trim` | src/config/driverCodes.js:14 | `trim()` returns a string with no space at either end, no longer than its input |
| `JsString.TrimOfPadded` | src/config/driverCodes.js:14 | trimming any space-padded trimmed string gives back exactly that string |
| `JsString.TrimIdempotent` | src/config/driverCodes.js:14 | trimming twice is trimming once |
| `JsString.ToUpperCase` | src/config/driverCodes.js:14 | `toUpperCase()` keeps the length and maps each lower-case ASCII letter to its capital and every other character to itself |
| `JsString.UpperIdempotent` | src/config/driverCodes.js:14 | upper-casing twice is upper-casing once |
| `JsString.DecimalRoundTrip` | src/services/sessionService.js:16 | the decimal text of the millisecond clock reads back as the same number |
| `JsString.LessIsLexicographic` | src/config/holidays.js:38 | the string `<` behind `>=` is exactly lexicographic order: a proper prefix, or a smaller character at the first difference |
| `DriverCodes.Normalize` | src/config/driverCodes.js:14 | the normal form the validator compares has no space at either end |
| `DriverCodes.ValidateDriverCode` | src/config/driverCodes.js:13-15 | an accepted code is never blank after trimming |
| `DriverCodes.AllCodesTrimmedAndNonEmpty` | src/config/driverCodes.js:5-10 | no listed code is empty or has surrounding space |
| `DriverCodes.ValidIffMatchesIgnoringCaseAndPadding` | src/config/driverCodes.js:13-15 | a code is accepted if and only if it is a listed code in some letter case with some spaces around it |
| `DriverCodes.ListedCodeAccepted` | src/config/driverCodes.js:5-10 | every listed code is accepted exactly as written |
| `DriverCodes.NormalizeIdempotent` | src/config/driverCodes.js:14 | normalising is idempotent, and validating the normal form gives the same verdict as validating the code |
| `DriverCodes.BlankCodeRejected` | src/config/driverCodes.js:5-10 | the empty code and every all-space code are rejected |
| `DriverCodes.LowerCaseAccepted` | src/config/driverCodes.js:14 | "bus77a" is accepted: letter case is ignored |
| `DriverCodes.PaddedCodeAccepted` | src/config/driverCodes.js:14 | "  GoKu\t" is accepted: surrounding space and letter case are ignored |
| `Holidays.HolidaysWellFormed` | src/config/holidays.js:4-17 | every calendar entry is a zero-padded `YYYY-MM-DD` date |
| `Holidays.DateOrderIsCalendarOrder` | src/config/holidays.js:37-38 | for well-formed dates, string `<` is exactly year-then-month-then-day order |
| `Holidays.IsHoliday` | src/config/holidays.js:20-30 | a date is a holiday only if its string is a well-formed date on the calendar |
| `Holidays.OnOrAfter` | src/config/holidays.js:38 | the filter keeps exactly the entries not less than today |
| `Holidays.GetUpcomingHolidays` | src/config/holidays.js:33-52 | with `count` defaulting to 5, the result has exactly `count` entries when that many holidays are upcoming, never more than `count`, is a prefix of the filtered calendar in list order, and each `date` is a calendar entry not before today |
| `Holidays.DefaultCountIsFive` | src/config/holidays.js:33 | called without a count, the result holds the first five upcoming holidays, or all of them when fewer remain |
| `Holidays.LargeCountReturnsAll` | src/config/holidays.js:37-39 | a count at least the number of upcoming holidays returns all of them |
| `Holidays.HolidaysStrictlyIncreasing` | src/config/holidays.js:4-17 | the calendar is listed in strictly increasing order |
| `Holidays.OnOrAfterIncreasing` | src/config/holidays.js:38 | filtering keeps a strictly increasing list strictly increasing |
| `Holidays.UpcomingAreEarliest` | src/config/holidays.js:37-39 | an upcoming holiday left out of the result comes after every holiday returned, so the result is the earliest ones |
| `SessionService.SessionIdAt` | src/services/sessionService.js:16 | a session id is `session_` followed by a non-empty run of decimal digits |
| `SessionService.SessionIdsDistinct` | src/services/sessionService.js:16 | two starts get the same id if and only if they happen in the same millisecond |
| `SessionService.SessionRoundTrip` | src/services/sessionService.js:31-34 | a spread copy of a session carries every field, and the session reads back from it intact |
| `SessionService.Broadcast` | src/services/sessionService.js:29 | every status listener is called once with the payload, in registration order |
| `SessionService.FanOutLocation` | src/services/sessionService.js:81 | the location is delivered as at most one call per wrapper; `FanOutDelivers`, `FanOutAppend` and `FanOutSingle` say which calls, in which order |
| `SessionService.FanOutDelivers` | src/services/sessionService.js:112-116 | a location reaches exactly the wrappers whose ride id is the active session's id, and only with that location |
| `SessionService.FanOutAppend` | src/services/sessionService.js:81 | fanning out over two lists of wrappers is fanning out over each in turn, so the calls follow registration order |
| `SessionService.FanOutSingle` | src/services/sessionService.js:112-116 | one wrapper is called once with the location exactly when its ride id matches, and otherwise not at all |
| `SessionService.StartRideSession` | src/services/sessionService.js:7-35 | an empty code throws and changes nothing. Otherwise an active session with the given code and driver, no location and a clock-derived id replaces the stored one. Every status listener is told in order. The reply has `success: true` and the session fields, `id` among them, and has no `rideId` |
| `SessionService.StopRideSession` | src/services/sessionService.js:38-54 | with no session it reports failure and notifies nobody. Otherwise it clears the session and notifies every status listener with `null`, in order |
| `SessionService.GetSessionStatus` | src/services/sessionService.js:57-59 | `null` exactly when no session is active, and otherwise a copy from which the stored session reads back |
| `SessionService.PublishLocation` | src/services/sessionService.js:62-84 | it throws and changes nothing unless the active session's id is the given ride id. Otherwise only `latestLocation` and `lastUpdated` change, and the calls are the fan-out over the wrappers in registration order |
| `SessionService.SubscribeToSessionStatus` | src/services/sessionService.js:87-96 | exactly one immediate call: the session's copy, or the `{active:false, rideId:null}` marker. The callback is then registered |
| `SessionService.SubscribeToLiveLocation` | src/services/sessionService.js:105-118 | the stored location is replayed immediately only when the active session's id matches and a location exists. The wrapper is registered with a fresh handle |
| `SessionService.RemoveCallback` | src/services/sessionService.js:100 | the filter removes every registration of the callback and keeps every other one as often as it was registered, in order |
| `SessionService.RemoveCallbackAppend` | src/services/sessionService.js:100 | filtering two lists joined is filtering each and joining, so the order of the rest is kept |
| `SessionService.RemoveOnlyRegistration` | src/services/sessionService.js:100 | removing a callback registered once leaves the listeners before and after it, in order |
| `SessionService.RemoveHandle` | src/services/sessionService.js:122 | the filter removes only the wrapper with that handle |
| `SessionService.RemoveHandleAppend` | src/services/sessionService.js:122 | filtering two lists of wrappers joined is filtering each and joining |
| `SessionService.CallUnsubscribe` | src/services/sessionService.js:99-123 | an unsubscribe filters its own listener list, by callback or by handle, and leaves the other list and the session alone |
| `SessionService.StartBroadcasts` | src/services/sessionService.js:29 | a start calls the status listeners in registration order with the new session's copy |
| `SessionService.UnsubscribeKeepsNotificationOrder` | src/services/sessionService.js:99-101 | after one listener unsubscribes, a start calls the others in their original order |
| `SessionService.OperationsPreserveValid` | src/services/sessionService.js:2-4 | every operation keeps the store valid: a stored session is active with an id, and wrapper handles are distinct |
| `SessionService.InitialValid` | src/services/sessionService.js:2-4 | the empty initial store is valid |
| `SessionService.StartOverwrites` | src/services/sessionService.js:15-26 | starting while a session is active succeeds and replaces it, so there is no conflict check |
| `SessionService.FirstStatusEventMatchesStatus` | src/services/sessionService.js:88-93 | the immediate status call carries what `getSessionStatus` returns, or the marker when that is `null` |
| `SessionService.UnsubscribeIdempotent` | src/services/sessionService.js:99-123 | calling an unsubscribe function a second time changes nothing |
| `SessionService.UnsubscribedStatusCallbackIsSilent` | src/services/sessionService.js:99-101 | after unsubscribing, a callback receives nothing from a start or a stop |
| `SessionService.NewSessionSilencesOldLocationSubscribers` | src/services/sessionService.js:112-116 | a start in another millisecond stops delivery to wrappers made for the old ride id |
| `SessionService.SameMillisecondStartKeepsOldSubscribers` | src/services/sessionService.js:16 | a start in the same millisecond reuses the id, so the old wrappers keep receiving |
| `SessionService.PublishReachesOnlyMatchingSubscribers` | src/services/sessionService.js:81 | a callback with no wrapper for the published ride id receives nothing |
| `ScheduleService.IsWithinAutoSessionWindow` | src/services/scheduleService.js:13-35 | the window is never open on a Sunday or a holiday |
| `ScheduleService.DeployedWindow` | src/services/scheduleService.js:5-35 | with the shipped configuration the window is open exactly from 7:45 inclusive to 9:00 exclusive, Monday to Saturday, holidays excepted |
| `ScheduleService.AutoTickReading` | src/services/scheduleService.js:38-77 | one tick reading the reply property `key`: the guards in source order, a start exactly when all pass, whose store and calls are `startRideSession`'s; reading `rideId` gives `undefined`, reading `id` gives the new session's id |
| `ScheduleService.CheckAndStartAutoSession` | src/services/scheduleService.js:38-77 | the first failing guard is the reason, in the order disabled, session active, outside window, already today. A session starts exactly when all guards pass, with the reserved code and `auto_driver`. Only a start records today, and its store is exactly what `startRideSession` with those arguments leaves. A thrown error becomes the reason. The returned `rideId` is `undefined` |
| `ScheduleService.CheckAndStartAutoSessionFixed` | src/services/scheduleService.js:60-69 | returning `result.id` instead, an auto-start reports the new session's id, with the same store and latch as the tick as written |
| `ScheduleService.NoAutoStartWhileActive` | src/services/scheduleService.js:43-45 | when the caller reports an active session, nothing starts and the store is untouched |
| `ScheduleService.ReservedCodeIsValid` | src/config/driverCodes.js:9 | the scheduler's reserved code passes the driver-code validator |
| `ScheduleService.StaleFlagReplacesSession` | src/services/scheduleService.js:43-61 | with a stale "no session" flag, a tick in the window replaces a running session with an auto-session |
| `ScheduleService.AtMostOneAutoStartPerDay` | src/services/scheduleService.js:52-64 | over any run of ticks on one local date at most one starts a session, and none starts once the latch holds that date |
| `ScheduleService.GetMinutesUntilAutoSession` | src/services/scheduleService.js:80-91 | the countdown lies in 1..1440 and lands on the start time modulo a day. At the start minute it is a full day |
| `ScheduleService.CountdownIsLeast` | src/services/scheduleService.js:80-91 | no smaller positive number of minutes lands on the start time |
| `DriverLogin.StartRideReading` | src/components/DriverLogin.jsx:14-53 | a code blank after trimming alerts and calls nothing, and so does a code the validator rejects. An accepted code is passed raw to `startRideSession` as driver `driver1`: the store and the listener calls are exactly that call's, the flag is raised and the handler navigates to the map |
| `DriverLogin.CallStart` | src/components/DriverLogin.jsx:32-46 | a non-empty code always gets a successful reply: the store and listener calls are exactly those of `startRideSession` with the raw code and driver `driver1`, the flag is raised, the ride id is read from the reply and its text stored, and the handler navigates to the map |
| `DriverLogin.Remount` | src/components/DriverLogin.jsx:10 | mounting again reads a ride id back exactly when a non-empty text is stored, and `null` otherwise; the flag and the stored text are kept |
| `DriverLogin.RemountIdempotent` | src/components/DriverLogin.jsx:10 | mounting twice gives the same state as mounting once |
| `DriverLogin.StartRide` | src/components/DriverLogin.jsx:37-42 | after a successful start the kept ride id is `undefined` and the stored text is "undefined"; a rejected code changes nothing |
| `DriverLogin.StartRideFixed` | src/components/DriverLogin.jsx:37-42 | reading `id` instead, the kept and the stored ride id are the new session's id |
| `DriverLogin.StopRide` | src/components/DriverLogin.jsx:55-74 | without a truthy ride id it only navigates, with no call and the flag unchanged. Otherwise the session is cleared and listeners are told, and the flag, ride id and stored entry are reset whatever `success` says |
| `DriverLogin.StartChangesSessionOnlyForValidCodes` | src/components/DriverLogin.jsx:15-34 | from an empty store, the handler creates a session if and only if the validator accepts the code |
| `DriverLogin.PaddedCodeStartsSessionWithRawCode` | src/components/DriverLogin.jsx:34 | a padded mixed-case code starts a session that records the code as typed |
| `DriverLogin.RemountedRideIdIsUndefinedText` | src/components/DriverLogin.jsx:10-42 | as written, after a start the stored text is "undefined", and the component mounted again holds it as a truthy string ride id |
| `DriverLogin.KeptRideIdCannotPublish` | src/components/DriverLogin.jsx:40-42 | hypothetical: publishing under the ride id kept in memory would throw; the source never does so, because the navigation unmounts the component |
| `DriverLogin.StoredRideIdCannotPublish` | src/components/DriverLogin.jsx:40-42 | as written, publishing under the stored text throws "No active session found for this ride" and leaves the session's location unset |
| `DriverLogin.RemountedStopEndsSession` | src/components/DriverLogin.jsx:10-68 | as written, stop in the component mounted again still ends the session, because "undefined" is truthy |
| `DriverLogin.FixedRemountRestoresLogin` | src/components/DriverLogin.jsx:10-42 | keeping `id`, mounting again restores exactly the state the start left |
| `DriverLogin.FixedStartThenStopEndsSession` | src/components/DriverLogin.jsx:55-68 | keeping `id`, stop after start and remount clears the session, resets the state and notifies every status listener with `null` |
| `DriverLogin.FixedRideIdPublishes` | src/components/DriverLogin.jsx:40-42 | keeping `id`, publishing under the stored ride id succeeds and records the location |
| `DriverLogin.RecordAutoStart` | src/App.js:51-55 | after an auto-start the shared flag is raised and the returned ride id's text is stored; otherwise nothing changes |
| `DriverLogin.AutoStartStoresUndefinedText` | src/App.js:51-55 | as written, an auto-start stores "undefined"; the driver page mounted afterwards cannot publish under it, while its stop ends the auto-session |
| `DriverLogin.FixedAutoStartStoresSessionId` | src/services/scheduleService.js:67 | returning `id`, an auto-start stores the new session's id, and the driver page mounted afterwards publishes under it |
| `StudentTracks.WindowsDisagreeOnlyAtNine` | src/components/StudentTracks.jsx:27-45 | on a non-holiday, the dashboard's window and the scheduler's differ exactly at 9:00 on a day other than Sunday, where only the dashboard's holds |
| `StudentTracks.HolidayOnlyScheduler` | src/components/StudentTracks.jsx:27-45 | on a holiday the scheduler's window is closed while the dashboard's is still 7:45 to 9:00 inclusive, not on Sunday |
| `StudentTracks.SnapshotData` | src/components/StudentTracks.jsx:69-73 | a truthy snapshot is active exactly when its `status` is "active", and its ride id is its `id` or `undefined` |
| `StudentTracks.OnStatusEvent` | src/components/StudentTracks.jsx:68-79 | a falsy snapshot resets the dashboard to `{active:false, rideId:null}`, and the shared flag always follows `active` |
| `StudentTracks.OnInitialLoad` | src/components/StudentTracks.jsx:55-62 | a `null` status leaves the dashboard unchanged, and any other status is mapped as a snapshot |
| `StudentTracks.BannerFor` | src/components/StudentTracks.jsx:104-120 | the redirect notice shows exactly while active. Otherwise the holiday line shows exactly on a holiday, the window line exactly when it is not a holiday and the window holds, and the schedule line in the remaining case |
| `StudentTracks.StartEventRedirects` | src/components/StudentTracks.jsx:93-98 | a start's notification shows the new session as active with its id and triggers the redirect |
| `StudentTracks.StopEventCloses` | src/components/StudentTracks.jsx:75-77 | a stop's notification resets the dashboard and never redirects |
| `StudentTracks.SubscriptionShowsStore` | src/components/StudentTracks.jsx:68-74 | the first event shows a session as active if and only if the store holds one. The marker maps to an inactive state with ride id `undefined` |
| `StudentTracks.InitialLoadShowsStore` | src/components/StudentTracks.jsx:55-62 | the initial load shows the stored session with its id and redirects, or keeps the dashboard when none is active |

## Left out

- Timers: `startAutoSessionScheduler` (src/services/scheduleService.js:94-117) runs the decision once at start-up and then every minute. Only one tick, `CheckAndStartAutoSession`, and runs of ticks (`RunTicks`) are modelled.
- Clocks and date formatting:
  - `Date.now`, `toISOString`, `toDateString` and `toLocaleDateString` are parameters (`Clock`, `Now`).
  - The display-only `formatted` field of an upcoming holiday is not produced.
  - A start reads the clock once in the model, where the source reads it three times: `Date.now()` for the id (src/services/sessionService.js:16), then `startTime` and `lastUpdated`. The same holds for the two readings in `publishLocation`.
- Persistent storage and React state: `localStorage`, storage events, React state and the shared context become plain record fields (`Login`, `Dashboard`, the scheduler's latch). Of `localStorage`, only the `eppo_rideId` entry, which the driver handlers and the app's scheduler callback write, is modelled; every remount of the driver page reads it back (`Remount`). The `eppo_session` entry and storage events are not modelled, since the flag they mirror lives in the app and survives the navigation.
- DriverLogin.StorageText: the string conversion of a number is not modelled; no reply property the handlers store is a number.
- DriverLogin.RecordAutoStart: it requires the returned ride id not to be a number, for the same reason; a tick never returns one.
- Holidays.GetUpcomingHolidays: `count` is an integer. The JavaScript number the source accepts may also be fractional, NaN or Infinity, and `slice` converts those; that conversion is not modelled.
- `stopRideSession` builds a "completed" copy of the session and then discards it (src/services/sessionService.js:41-46). It has no observable effect, so it is not modelled.
- Callback execution: listener calls are recorded as `Event`s in order, not run. A callback that throws or re-enters the store is not modelled.
- `registerFCMToken` and `initAuth` are stubs with fixed replies, and they are not modelled.
- `src/components/MapView.jsx`, `src/App.js` and `src/firebase.js` are not part of this model: they cover geolocation, map rendering, routing and messaging. The one exception is the app's scheduler callback (src/App.js:51-55), modelled as `RecordAutoStart`. Latitude and longitude are opaque values. The map page's use of the stored ride id is represented only by publishing under the stored text (`StoredRideIdCannotPublish`, `FixedRideIdPublishes`).
- Presentational components are not modelled: the intro screen, role chooser, drawer, particles and the rest of the JSX markup.
- The `loading` flag, console logging and the notification-permission request have no effect on the modelled state.
- JsString.Trim: only ASCII white space is removed, not the full Unicode set `trim` uses.
- JsString.ToUpperCase: only ASCII letters are upper-cased, not full Unicode case mapping.
- JsValue.Truthy: NaN is not modelled.
- SessionService.StartRideSession: the driver code is a string. The source's `!driverCode` test on non-string values is not modelled.
- ScheduleService.GetMinutesUntilAutoSession: it requires hour and minute to be clock readings in 0..23 and 0..59, as `getHours` and `getMinutes` always return.

## Findings

| source | as written | input that shows it | evidently intended | confidence | as-written member | corrected member |
|---|---|---|---|---|---|---|
| src/components/DriverLogin.jsx:40-42 | the handler keeps `result.rideId`, but the `startRideSession` reply has `id` and no `rideId`, so the kept ride id is `undefined` | any accepted code, e.g. "BUS77A": the text "undefined" is stored as the ride id, and every location published under it (src/components/MapView.jsx:20 and 50) is refused with "No active session found for this ride", so the session never gets a location. Stop still works: the remounted page reads the truthy text "undefined" | keep `result.id`, the id of the session just started | high; not executed | `DriverLogin.StartRide`, shown by `DriverLogin.RemountedRideIdIsUndefinedText` and `DriverLogin.StoredRideIdCannotPublish` | `DriverLogin.StartRideFixed`, proved by `DriverLogin.FixedRideIdPublishes`, `DriverLogin.FixedRemountRestoresLogin` and `DriverLogin.FixedStartThenStopEndsSession` |
| src/services/scheduleService.js:67 | the auto-start returns `result.rideId`, which the reply does not have, so the app stores the text "undefined" as the ride id (src/App.js:55) | any tick in the window with no session flagged and no start yet today: the driver page mounted afterwards holds the ride id "undefined", every location published under it is refused, and its stop still ends the auto-session | return `result.id`, the id of the session just started | high; not executed | `ScheduleService.CheckAndStartAutoSession`, shown by `DriverLogin.AutoStartStoresUndefinedText` | `ScheduleService.CheckAndStartAutoSessionFixed`, proved by `DriverLogin.FixedAutoStartStoresSessionId` |

