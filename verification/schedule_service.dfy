/** The auto-session scheduler's decision (src/services/scheduleService.js).

    One tick of the source's one-minute interval is one call of
    `CheckAndStartAutoSession`. The readings of `new Date()` are parameters:
    hour, minute and weekday and the `toDateString()` used by the daily latch
    are local time, while the holiday test uses the UTC date from
    `toISOString()`. The `localStorage` entry `eppo_last_auto_session` is the
    `lastAutoSession` field threaded through the ticks. */
module ScheduleService {
  import opened Wrappers
  import opened JsValue
  import SessionService
  import Holidays
  import DriverCodes
  import JsString

  datatype TimeOfDay = TimeOfDay(hour: int, minute: int)

  /** `AUTO_SESSION_CONFIG`. */
  datatype Config = Config(startTime: TimeOfDay, endTime: TimeOfDay, autoDriverCode: string, enabled: bool)

  const AUTO_SESSION_CONFIG: Config := Config(TimeOfDay(7, 45), TimeOfDay(9, 0), "AUTO_SESSION_7AM", true)

  /** The driver id the scheduler starts sessions under. */
  const AUTO_DRIVER_ID := "auto_driver"

  const MINUTES_PER_DAY := 24 * 60

  /** The readings of `new Date()` one tick uses. */
  datatype Now = Now(
    hour: int,                       // getHours(), local
    minute: int,                     // getMinutes(), local
    dayOfWeek: int,                  // getDay(), local, 0 = Sunday
    dateString: string,              // toDateString(), local
    utcDate: string,                 // toISOString() up to the 'T'
    clock: SessionService.Clock)     // what startRideSession reads

  function Minutes(t: TimeOfDay): int {
    t.hour * 60 + t.minute
  }

  function MinuteOfDay(now: Now): int {
    now.hour * 60 + now.minute
  }

  /** `isWithinAutoSessionWindow()`: not a Sunday, not a holiday, and the
      local time in the half-open window from the start time to the end
      time. */
  predicate IsWithinAutoSessionWindow(cfg: Config, now: Now)
    ensures IsWithinAutoSessionWindow(cfg, now) ==> now.dayOfWeek != 0 && !Holidays.IsHoliday(now.utcDate)
  {
    if now.dayOfWeek == 0 then false
    else if Holidays.IsHoliday(now.utcDate) then false
    else Minutes(cfg.startTime) <= MinuteOfDay(now) < Minutes(cfg.endTime)
  }

  /** With the shipped configuration the window is 7:45 inclusive to 9:00
      exclusive, Monday to Saturday, holidays excepted. */
  lemma DeployedWindow(now: Now)
    ensures IsWithinAutoSessionWindow(AUTO_SESSION_CONFIG, now) <==>
            now.dayOfWeek != 0 && !Holidays.IsHoliday(now.utcDate) && 465 <= now.hour * 60 + now.minute < 540
  {
  }

  // ---------------------------------------------------------------------------
  // One tick
  // ---------------------------------------------------------------------------

  /** The object `checkAndStartAutoSession` resolves to. */
  datatype AutoResult = NotStarted(reason: string) | Started(rideId: Value, message: string)

  /** One tick: the latch afterwards, the store afterwards, the listener calls
      made, and the result. */
  datatype Tick = Tick(lastAutoSession: Option<string>, store: SessionService.Store,
                       events: seq<SessionService.Event>, result: AutoResult)

  const REASON_DISABLED := "Auto-session disabled"
  const REASON_SESSION_ACTIVE := "Session already active"
  const REASON_OUTSIDE_WINDOW := "Outside auto-session time window"
  const REASON_ALREADY_TODAY := "Auto-session already started today"
  const REASON_UNKNOWN := "Unknown error"
  const STARTED_MESSAGE := "Auto-session started (7:45 AM - 9:00 AM)"

  /** All four guards of the cascade pass. */
  predicate GuardsPass(cfg: Config, lastAutoSession: Option<string>, currentSessionActive: bool, now: Now) {
    cfg.enabled && !currentSessionActive && IsWithinAutoSessionWindow(cfg, now)
    && lastAutoSession != Some(now.dateString)
  }

  /** `checkAndStartAutoSession(currentSessionActive)`, returning the reply's
      property `key` as the ride id. The guards are tried in order and the
      first that fails is the reason; only when all pass is
      `startRideSession(autoDriverCode, "auto_driver")` called. A throw is
      reported as its message; only a success records today in the latch. */
  function AutoTickReading(key: string, cfg: Config, lastAutoSession: Option<string>, store: SessionService.Store,
                           currentSessionActive: bool, now: Now): (t: Tick)
    ensures !cfg.enabled ==> t == Tick(lastAutoSession, store, [], NotStarted(REASON_DISABLED))
    ensures cfg.enabled && currentSessionActive ==>
              t == Tick(lastAutoSession, store, [], NotStarted(REASON_SESSION_ACTIVE))
    ensures cfg.enabled && !currentSessionActive && !IsWithinAutoSessionWindow(cfg, now) ==>
              t == Tick(lastAutoSession, store, [], NotStarted(REASON_OUTSIDE_WINDOW))
    ensures cfg.enabled && !currentSessionActive && IsWithinAutoSessionWindow(cfg, now)
            && lastAutoSession == Some(now.dateString) ==>
              t == Tick(lastAutoSession, store, [], NotStarted(REASON_ALREADY_TODAY))
    ensures GuardsPass(cfg, lastAutoSession, currentSessionActive, now) && cfg.autoDriverCode == "" ==>
              t == Tick(lastAutoSession, store, [], NotStarted("Driver code is required"))
    ensures t.result.Started? <==> GuardsPass(cfg, lastAutoSession, currentSessionActive, now) && cfg.autoDriverCode != ""
    ensures t.result.Started? ==>
      && t.lastAutoSession == Some(now.dateString)
      && t.result.message == STARTED_MESSAGE
      && !t.result.rideId.Num?
      && t.store == SessionService.StartRideSession(store, cfg.autoDriverCode, AUTO_DRIVER_ID, now.clock).store
      && t.store.activeSession.Some?
      && t.store.activeSession.value.status == SessionService.ACTIVE
      && t.store.activeSession.value.latestLocation.None?
      && t.store.activeSession.value.driverCode == cfg.autoDriverCode
      && t.store.activeSession.value.driverId == AUTO_DRIVER_ID
      && t.store.activeSession.value.id == SessionService.SessionIdAt(now.clock.millis)
      && t.events == SessionService.StartRideSession(store, cfg.autoDriverCode, AUTO_DRIVER_ID, now.clock).events
      && (key == "rideId" ==> t.result.rideId == Undefined)
      && (key == "id" ==> t.result.rideId == Str(t.store.activeSession.value.id))
    ensures !t.result.Started? ==> t.lastAutoSession == lastAutoSession && t.store == store && t.events == []
  {
    if !cfg.enabled then
      Tick(lastAutoSession, store, [], NotStarted(REASON_DISABLED))
    else if currentSessionActive then
      Tick(lastAutoSession, store, [], NotStarted(REASON_SESSION_ACTIVE))
    else if !IsWithinAutoSessionWindow(cfg, now) then
      Tick(lastAutoSession, store, [], NotStarted(REASON_OUTSIDE_WINDOW))
    else if lastAutoSession == Some(now.dateString) then
      Tick(lastAutoSession, store, [], NotStarted(REASON_ALREADY_TODAY))
    else
      var step := SessionService.StartRideSession(store, cfg.autoDriverCode, AUTO_DRIVER_ID, now.clock);
      match step.result
      case Thrown(message) => Tick(lastAutoSession, step.store, step.events, NotStarted(message))
      case Ok(reply) =>
        if reply.Obj? && Truthy(Get(reply, "success")) then
          Tick(Some(now.dateString), step.store, step.events, Started(Get(reply, key), STARTED_MESSAGE))
        else
          Tick(lastAutoSession, step.store, step.events, NotStarted(REASON_UNKNOWN))
  }

  /** `checkAndStartAutoSession` as written: the returned `rideId` reads a
      property the start reply does not have, so it is always `undefined`. */
  function CheckAndStartAutoSession(cfg: Config, lastAutoSession: Option<string>, store: SessionService.Store,
                                    currentSessionActive: bool, now: Now): (t: Tick)
    ensures !cfg.enabled ==> t == Tick(lastAutoSession, store, [], NotStarted(REASON_DISABLED))
    ensures cfg.enabled && currentSessionActive ==>
              t == Tick(lastAutoSession, store, [], NotStarted(REASON_SESSION_ACTIVE))
    ensures cfg.enabled && !currentSessionActive && !IsWithinAutoSessionWindow(cfg, now) ==>
              t == Tick(lastAutoSession, store, [], NotStarted(REASON_OUTSIDE_WINDOW))
    ensures cfg.enabled && !currentSessionActive && IsWithinAutoSessionWindow(cfg, now)
            && lastAutoSession == Some(now.dateString) ==>
              t == Tick(lastAutoSession, store, [], NotStarted(REASON_ALREADY_TODAY))
    ensures GuardsPass(cfg, lastAutoSession, currentSessionActive, now) && cfg.autoDriverCode == "" ==>
              t == Tick(lastAutoSession, store, [], NotStarted("Driver code is required"))
    ensures t.result.Started? <==> GuardsPass(cfg, lastAutoSession, currentSessionActive, now) && cfg.autoDriverCode != ""
    ensures t.result.Started? ==>
      && t.lastAutoSession == Some(now.dateString)
      && t.result == Started(Undefined, STARTED_MESSAGE)
      && t.store == SessionService.StartRideSession(store, cfg.autoDriverCode, AUTO_DRIVER_ID, now.clock).store
      && t.store.activeSession.Some?
      && t.store.activeSession.value.status == SessionService.ACTIVE
      && t.store.activeSession.value.latestLocation.None?
      && t.store.activeSession.value.driverCode == cfg.autoDriverCode
      && t.store.activeSession.value.driverId == AUTO_DRIVER_ID
      && t.store.activeSession.value.id == SessionService.SessionIdAt(now.clock.millis)
      && t.events == SessionService.StartRideSession(store, cfg.autoDriverCode, AUTO_DRIVER_ID, now.clock).events
    ensures !t.result.Started? ==> t.lastAutoSession == lastAutoSession && t.store == store && t.events == []
  {
    AutoTickReading("rideId", cfg, lastAutoSession, store, currentSessionActive, now)
  }

  /** `checkAndStartAutoSession` returning the `id` the reply does carry: an
      auto-start reports the id of the session it created. */
  function CheckAndStartAutoSessionFixed(cfg: Config, lastAutoSession: Option<string>, store: SessionService.Store,
                                         currentSessionActive: bool, now: Now): (t: Tick)
    ensures t.result.Started? <==> GuardsPass(cfg, lastAutoSession, currentSessionActive, now) && cfg.autoDriverCode != ""
    ensures t.result.Started? ==>
      && t.store.activeSession.Some?
      && t.result == Started(Str(t.store.activeSession.value.id), STARTED_MESSAGE)
    ensures t.store == CheckAndStartAutoSession(cfg, lastAutoSession, store, currentSessionActive, now).store
    ensures t.lastAutoSession == CheckAndStartAutoSession(cfg, lastAutoSession, store, currentSessionActive, now).lastAutoSession
  {
    AutoTickReading("id", cfg, lastAutoSession, store, currentSessionActive, now)
  }

  /** No auto-start ever happens while the caller reports an active session. */
  lemma NoAutoStartWhileActive(cfg: Config, lastAutoSession: Option<string>, store: SessionService.Store, now: Now)
    ensures !CheckAndStartAutoSession(cfg, lastAutoSession, store, true, now).result.Started?
    ensures CheckAndStartAutoSession(cfg, lastAutoSession, store, true, now).store == store
  {
  }

  /** The reserved code the scheduler presents would pass the driver-code
      validator, though `startRideSession` itself never consults it. */
  lemma ReservedCodeIsValid()
    ensures DriverCodes.ValidateDriverCode(AUTO_SESSION_CONFIG.autoDriverCode)
  {
    assert AUTO_SESSION_CONFIG.autoDriverCode == DriverCodes.VALID_DRIVER_CODES[3];
    DriverCodes.ListedCodeAccepted(AUTO_SESSION_CONFIG.autoDriverCode);
  }

  /** The caller's flag is the only guard against an existing session: when
      it is stale, a tick in the window replaces the session the store
      holds. */
  lemma StaleFlagReplacesSession(lastAutoSession: Option<string>, store: SessionService.Store, now: Now)
    requires store.activeSession.Some?
    requires IsWithinAutoSessionWindow(AUTO_SESSION_CONFIG, now) && lastAutoSession != Some(now.dateString)
    ensures var t := CheckAndStartAutoSession(AUTO_SESSION_CONFIG, lastAutoSession, store, false, now);
            && t.result.Started?
            && t.store.activeSession.Some?
            && t.store.activeSession.value.driverId == AUTO_DRIVER_ID
  {
  }

  // ---------------------------------------------------------------------------
  // Many ticks
  // ---------------------------------------------------------------------------

  /** What one tick of the interval reads: the persisted session flag and the
      clock. */
  datatype TickInput = TickInput(currentSessionActive: bool, now: Now)

  /** The latch, store and number of auto-starts after a run of ticks. */
  datatype Run = Run(lastAutoSession: Option<string>, store: SessionService.Store, starts: nat)

  function RunTicks(cfg: Config, lastAutoSession: Option<string>, store: SessionService.Store,
                    inputs: seq<TickInput>): Run
    decreases |inputs|
  {
    if inputs == [] then Run(lastAutoSession, store, 0)
    else
      var t := CheckAndStartAutoSession(cfg, lastAutoSession, store, inputs[0].currentSessionActive, inputs[0].now);
      var rest := RunTicks(cfg, t.lastAutoSession, t.store, inputs[1..]);
      Run(rest.lastAutoSession, rest.store, rest.starts + if t.result.Started? then 1 else 0)
  }

  /** However many ticks fall on one local date, at most one of them starts a
      session, and none does once the latch already holds that date. */
  lemma {:induction false} AtMostOneAutoStartPerDay(cfg: Config, lastAutoSession: Option<string>,
                                                    store: SessionService.Store, inputs: seq<TickInput>, day: string)
    requires forall i :: 0 <= i < |inputs| ==> inputs[i].now.dateString == day
    ensures RunTicks(cfg, lastAutoSession, store, inputs).starts <= if lastAutoSession == Some(day) then 0 else 1
    ensures lastAutoSession == Some(day) ==> RunTicks(cfg, lastAutoSession, store, inputs).lastAutoSession == Some(day)
    decreases |inputs|
  {
    if inputs != [] {
      var t := CheckAndStartAutoSession(cfg, lastAutoSession, store, inputs[0].currentSessionActive, inputs[0].now);
      AtMostOneAutoStartPerDay(cfg, t.lastAutoSession, t.store, inputs[1..], day);
    }
  }

  // ---------------------------------------------------------------------------
  // Countdown
  // ---------------------------------------------------------------------------

  /** `getMinutesUntilAutoSession()`: minutes from now to the next start
      time, today if it is still ahead and otherwise tomorrow; at the start
      minute itself a full day. */
  function GetMinutesUntilAutoSession(cfg: Config, hour: int, minute: int): (r: int)
    requires 0 <= hour < 24 && 0 <= minute < 60
    requires 0 <= Minutes(cfg.startTime) < MINUTES_PER_DAY
    ensures 1 <= r <= MINUTES_PER_DAY
    ensures (hour * 60 + minute + r) % MINUTES_PER_DAY == Minutes(cfg.startTime)
    ensures hour * 60 + minute == Minutes(cfg.startTime) ==> r == MINUTES_PER_DAY
  {
    var current := hour * 60 + minute;
    var start := Minutes(cfg.startTime);
    if current >= start then (MINUTES_PER_DAY - current) + start else start - current
  }

  /** The countdown is the least positive number of minutes that lands on the
      start time. */
  lemma CountdownIsLeast(cfg: Config, hour: int, minute: int, k: int)
    requires 0 <= hour < 24 && 0 <= minute < 60
    requires 0 <= Minutes(cfg.startTime) < MINUTES_PER_DAY
    requires 1 <= k < GetMinutesUntilAutoSession(cfg, hour, minute)
    ensures (hour * 60 + minute + k) % MINUTES_PER_DAY != Minutes(cfg.startTime)
  {
    var current := hour * 60 + minute;
    var start := Minutes(cfg.startTime);
    var v := current + k;
    if v < MINUTES_PER_DAY {
      assert v % MINUTES_PER_DAY == v;
    } else {
      assert v - MINUTES_PER_DAY < MINUTES_PER_DAY;
      assert v % MINUTES_PER_DAY == v - MINUTES_PER_DAY;
    }
  }
}
