/** The student dashboard's decisions (src/components/StudentTracks.jsx): its
    own copy of the auto-session window, the mapping from session snapshots
    to dashboard state, the redirect to the map and the banner shown while no
    session runs. The clock readings are parameters; the holiday test reads
    the UTC date, the window the local clock. */
module StudentTracks {
  import opened JsValue
  import SessionService
  import ScheduleService
  import Holidays

  /** The component's `sessionData`. */
  datatype SessionData = SessionData(active: bool, rideId: Value)

  /** `sessionData` together with the shared `sessionActive` flag the
      component also sets. */
  datatype Dashboard = Dashboard(data: SessionData, sessionActive: bool)

  /** The initial `sessionData`, and what a `null` snapshot resets it to. */
  const CLOSED := SessionData(false, Null)

  /** The line under "The session is closed at the moment.", or the
      redirecting notice while a session is active. */
  datatype Banner = Redirecting | HolidayToday | AutoSessionActive | AutoSessionSchedule

  // ---------------------------------------------------------------------------
  // The dashboard's window
  // ---------------------------------------------------------------------------

  const WINDOW_START := 7 * 60 + 45
  const WINDOW_END := 9 * 60

  /** The component's `isWithinAutoSessionWindow()`: local time from 7:45 to
      9:00 with BOTH ends included, any day but Sunday. Unlike the
      scheduler's predicate it does not consult the holiday calendar. */
  predicate IsWithinAutoSessionWindow(hour: int, minute: int, dayOfWeek: int) {
    var current := hour * 60 + minute;
    current >= WINDOW_START && current <= WINDOW_END && dayOfWeek != 0
  }

  /** On a day that is not a holiday the dashboard and the scheduler agree
      about the window at every minute except 9:00 (on any day but Sunday),
      where the dashboard still announces an auto-session that the scheduler
      no longer starts. */
  lemma WindowsDisagreeOnlyAtNine(now: ScheduleService.Now)
    requires !Holidays.IsHoliday(now.utcDate)
    ensures IsWithinAutoSessionWindow(now.hour, now.minute, now.dayOfWeek)
              != ScheduleService.IsWithinAutoSessionWindow(ScheduleService.AUTO_SESSION_CONFIG, now)
            <==> now.hour * 60 + now.minute == WINDOW_END && now.dayOfWeek != 0
    ensures now.hour * 60 + now.minute == WINDOW_END && now.dayOfWeek != 0 ==>
              IsWithinAutoSessionWindow(now.hour, now.minute, now.dayOfWeek)
              && !ScheduleService.IsWithinAutoSessionWindow(ScheduleService.AUTO_SESSION_CONFIG, now)
  {
    ScheduleService.DeployedWindow(now);
  }

  /** On a holiday the scheduler never starts, while the dashboard's window
      still holds from 7:45 to 9:00. */
  lemma HolidayOnlyScheduler(now: ScheduleService.Now)
    requires Holidays.IsHoliday(now.utcDate)
    ensures !ScheduleService.IsWithinAutoSessionWindow(ScheduleService.AUTO_SESSION_CONFIG, now)
    ensures IsWithinAutoSessionWindow(now.hour, now.minute, now.dayOfWeek)
            <==> 465 <= now.hour * 60 + now.minute <= 540 && now.dayOfWeek != 0
  {
  }

  // ---------------------------------------------------------------------------
  // Snapshots
  // ---------------------------------------------------------------------------

  /** The dashboard state a truthy snapshot maps to: active exactly when its
      `status` is the string "active", with its `id` as the ride id. */
  function SnapshotData(snapshot: Value): (d: SessionData)
    requires Truthy(snapshot)
    ensures d.active <==> snapshot.Obj? && "status" in snapshot.fields && snapshot.fields["status"] == Str("active")
    ensures d.rideId == (if snapshot.Obj? && "id" in snapshot.fields then snapshot.fields["id"] else Undefined)
  {
    SessionData(Get(snapshot, "status") == Str(SessionService.ACTIVE), Get(snapshot, "id"))
  }

  /** The status listener: a truthy snapshot is mapped, anything else resets
      the dashboard to closed. The shared flag follows `active`. */
  function OnStatusEvent(d: Dashboard, snapshot: Value): (r: Dashboard)
    ensures r.sessionActive == r.data.active
    ensures !Truthy(snapshot) ==> r == Dashboard(CLOSED, false)
    ensures Truthy(snapshot) ==> r.data == SnapshotData(snapshot)
  {
    if Truthy(snapshot) then
      var data := SnapshotData(snapshot);
      Dashboard(data, data.active)
    else
      Dashboard(CLOSED, false)
  }

  /** The initial load: a falsy status (no active session) leaves the
      dashboard as it was; a truthy one is mapped like a snapshot. */
  function OnInitialLoad(d: Dashboard, status: Value): (r: Dashboard)
    ensures !Truthy(status) ==> r == d
    ensures Truthy(status) ==> r == OnStatusEvent(d, status)
  {
    if Truthy(status) then
      var data := SnapshotData(status);
      Dashboard(data, data.active)
    else
      d
  }

  /** The redirect effect: to the map only when the session is active and
      the ride id is truthy. */
  predicate ShouldRedirect(data: SessionData) {
    data.active && Truthy(data.rideId)
  }

  /** What the dashboard shows: the redirecting notice while active;
      otherwise the holiday line before the window line before the
      schedule. */
  function BannerFor(data: SessionData, utcDate: string, hour: int, minute: int, dayOfWeek: int): (b: Banner)
    ensures b == Redirecting <==> data.active
    ensures b == HolidayToday <==> !data.active && Holidays.IsHoliday(utcDate)
    ensures b == AutoSessionSchedule <==>
              !data.active && !Holidays.IsHoliday(utcDate) && !IsWithinAutoSessionWindow(hour, minute, dayOfWeek)
    ensures b == AutoSessionActive <==>
              !data.active && !Holidays.IsHoliday(utcDate) && IsWithinAutoSessionWindow(hour, minute, dayOfWeek)
  {
    if data.active then Redirecting
    else if Holidays.IsHoliday(utcDate) then HolidayToday
    else if IsWithinAutoSessionWindow(hour, minute, dayOfWeek) then AutoSessionActive
    else AutoSessionSchedule
  }

  // ---------------------------------------------------------------------------
  // Against the session store
  // ---------------------------------------------------------------------------

  /** A start's notification shows the dashboard an active session with the
      new session's id, and sends it to the map. */
  lemma StartEventRedirects(d: Dashboard, st: SessionService.Store, code: string, driverId: string,
                            now: SessionService.Clock, i: nat)
    requires code != ""
    requires i < |SessionService.StartRideSession(st, code, driverId, now).events|
    ensures var step := SessionService.StartRideSession(st, code, driverId, now);
            var r := OnStatusEvent(d, step.events[i].payload);
            && r.data == SessionData(true, Str(step.store.activeSession.value.id))
            && r.sessionActive
            && ShouldRedirect(r.data)
  {
    var step := SessionService.StartRideSession(st, code, driverId, now);
    var s := step.store.activeSession.value;
    assert step.events[i].payload == SessionService.SessionValue(s);
    assert |s.id| > 8;
  }

  /** A stop's notification resets the dashboard to closed. */
  lemma StopEventCloses(d: Dashboard, st: SessionService.Store, i: nat)
    requires i < |SessionService.StopRideSession(st).events|
    ensures var r := OnStatusEvent(d, SessionService.StopRideSession(st).events[i].payload);
            r == Dashboard(CLOSED, false) && !ShouldRedirect(r.data)
  {
  }

  /** The first event of a subscription tells the dashboard whether a
      session is active: it shows one exactly when the store holds one, and
      then with the session's id. With none, the `{active:false,
      rideId:null}` marker is a truthy object read through `status` and
      `id`, so the ride id becomes `undefined`, not `null`. */
  lemma SubscriptionShowsStore(d: Dashboard, st: SessionService.Store, cb: SessionService.Callback)
    requires SessionService.Valid(st)
    ensures var r := OnStatusEvent(d, SessionService.SubscribeToSessionStatus(st, cb).events[0].payload);
            && (r.data.active <==> st.activeSession.Some?)
            && (st.activeSession.Some? ==> r.data.rideId == Str(st.activeSession.value.id) && ShouldRedirect(r.data))
            && (st.activeSession.None? ==> r == Dashboard(SessionData(false, Undefined), false))
  {
    var payload := SessionService.SubscribeToSessionStatus(st, cb).events[0].payload;
    if st.activeSession.Some? {
      var s := st.activeSession.value;
      SessionService.SessionRoundTrip(s);
      assert payload == SessionService.SessionValue(s);
    }
  }

  /** The initial load agrees with the store: it shows an active session
      with the stored id when one is active, and keeps the dashboard as it
      was otherwise. */
  lemma InitialLoadShowsStore(d: Dashboard, st: SessionService.Store)
    requires SessionService.Valid(st)
    ensures var r := OnInitialLoad(d, SessionService.GetSessionStatus(st));
            && (st.activeSession.None? ==> r == d)
            && (st.activeSession.Some? ==>
                  r.data == SessionData(true, Str(st.activeSession.value.id)) && ShouldRedirect(r.data))
  {
    if st.activeSession.Some? {
      var s := st.activeSession.value;
      assert SessionService.GetSessionStatus(st) == SessionService.SessionValue(s);
    }
  }
}
