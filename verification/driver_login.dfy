/** The driver's start and stop handlers (src/components/DriverLogin.jsx).

    The component's React state, the shared `sessionActive` flag and the
    `eppo_rideId` entry of `localStorage` are one `Login` record; the alert
    or navigation a handler ends with is its `Ui` result. The handlers await
    calls that only touch memory, so each is one step over the session
    store. A successful start navigates to the map, which unmounts the
    component: the ride id a later stop sees is the one `Remount` reads back
    from storage. */
module DriverLogin {
  import opened Wrappers
  import opened JsValue
  import opened SessionService
  import JsString
  import DriverCodes
  import ScheduleService

  /** The `sessionActive` flag, the ride id the component keeps, and the text
      stored under `eppo_rideId` (`None` when the entry is absent). */
  datatype Login = Login(sessionActive: bool, rideId: Value, storedRideId: Option<string>)

  /** How a handler ends: an alert, or navigation to a route. */
  datatype Ui = Alert(message: string) | Navigate(path: string)

  /** The component state, the session store and the listener calls after a
      handler, and how it ended. */
  datatype Outcome = Outcome(login: Login, store: Store, events: seq<Event>, ui: Ui)

  const ENTER_CODE := "Enter driver code"
  const INVALID_CODE := "Invalid driver code. Please check your access code and try again.\n\nValid codes: BUS77A, GOKU, GOKULNATH8887"
  const NO_SUCCESS := "Failed to start ride: No success response"
  const MAP_ROUTE := "/map"
  const CHOOSE_ROUTE := "/choose"

  /** The state after a stop, and on a fresh page with nothing stored. */
  const SIGNED_OUT := Login(false, Null, None)

  function StartFailure(message: string): string {
    "Failed to start ride: " + message + "\n\nCheck console for details."
  }

  function StopFailure(message: string): string {
    "Failed to stop ride: " + message
  }

  /** The text `localStorage.setItem` stores for a value: its string
      conversion. Numbers are left out; no reply property is one. */
  function StorageText(v: Value): string
    requires !v.Num?
  {
    match v
    case Undefined => "undefined"
    case Null => "null"
    case Bool(b) => if b then "true" else "false"
    case Str(s) => s
    case Obj(_) => "[object Object]"
  }

  /** The component mounting again (after the map, or on a reload): the ride
      id is read back from storage with `|| null`, so an absent or empty
      entry gives `null` and any other text is kept as a string. The flag
      lives in the app and survives. */
  function Remount(login: Login): (r: Login)
    ensures r.sessionActive == login.sessionActive && r.storedRideId == login.storedRideId
    ensures Truthy(r.rideId) <==> login.storedRideId.Some? && login.storedRideId.value != ""
    ensures !Truthy(r.rideId) ==> r.rideId == Null
    ensures Truthy(r.rideId) ==> r.rideId == Str(login.storedRideId.value)
  {
    match login.storedRideId
    case Some(text) => Login(login.sessionActive, if text != "" then Str(text) else Null, login.storedRideId)
    case None => Login(login.sessionActive, Null, login.storedRideId)
  }

  /** Remounting twice reads the same entry twice. */
  lemma RemountIdempotent(login: Login)
    ensures Remount(Remount(login)) == Remount(login)
  {
  }

  /** `startRide`, remembering the ride id from the reply's property `key`.
      A code that is blank after trimming, or that the validator rejects,
      never reaches `startRideSession`; an accepted code is passed as typed,
      neither trimmed nor upper-cased. The flag is raised only on a reply
      with `success`. */
  function StartRideReading(key: string, login: Login, code: string, store: Store, now: Clock): (r: Outcome)
    ensures JsString.Trim(code) == [] ==> r == Outcome(login, store, [], Alert(ENTER_CODE))
    ensures JsString.Trim(code) != [] && !DriverCodes.ValidateDriverCode(code) ==>
              r == Outcome(login, store, [], Alert(INVALID_CODE))
    ensures DriverCodes.ValidateDriverCode(code) ==>
      && r.ui == Navigate(MAP_ROUTE)
      && r.login.sessionActive
      && r.store.activeSession.Some?
      && r.store.activeSession.value.driverCode == code
      && r.store.activeSession.value.driverId == DEFAULT_DRIVER_ID
      && r.store.activeSession.value.id == SessionIdAt(now.millis)
      && r.store.sessionListeners == store.sessionListeners
      && r.store.locationListeners == store.locationListeners
      && |r.events| == |store.sessionListeners|
      && (key == "id" ==>
            r.login.rideId == Str(r.store.activeSession.value.id)
            && r.login.storedRideId == Some(r.store.activeSession.value.id))
      && (key == "rideId" ==> r.login.rideId == Undefined && r.login.storedRideId == Some("undefined"))
      && r.store == StartRideSession(store, code, DEFAULT_DRIVER_ID, now).store
      && r.events == StartRideSession(store, code, DEFAULT_DRIVER_ID, now).events
  {
    if JsString.Trim(code) == [] then
      Outcome(login, store, [], Alert(ENTER_CODE))
    else if !DriverCodes.ValidateDriverCode(code) then
      Outcome(login, store, [], Alert(INVALID_CODE))
    else
      CallStart(key, login, code, store, now)
  }

  /** The `try` block of `startRide`: the call, then the branch on its
      reply. A non-empty code always yields a successful reply. */
  function CallStart(key: string, login: Login, code: string, store: Store, now: Clock): (r: Outcome)
    requires code != ""
    ensures
      && r.ui == Navigate(MAP_ROUTE)
      && r.login.sessionActive
      && r.store.activeSession.Some?
      && r.store.activeSession.value.driverCode == code
      && r.store.activeSession.value.driverId == DEFAULT_DRIVER_ID
      && r.store.activeSession.value.id == SessionIdAt(now.millis)
      && r.store.sessionListeners == store.sessionListeners
      && r.store.locationListeners == store.locationListeners
      && |r.events| == |store.sessionListeners|
      && (key == "id" ==>
            r.login.rideId == Str(r.store.activeSession.value.id)
            && r.login.storedRideId == Some(r.store.activeSession.value.id))
      && (key == "rideId" ==> r.login.rideId == Undefined && r.login.storedRideId == Some("undefined"))
      && r.store == StartRideSession(store, code, DEFAULT_DRIVER_ID, now).store
      && r.events == StartRideSession(store, code, DEFAULT_DRIVER_ID, now).events
  {
    var step := StartRideSession(store, code, DEFAULT_DRIVER_ID, now);
    match step.result
    case Thrown(message) => Outcome(login, step.store, step.events, Alert(StartFailure(message)))
    case Ok(result) =>
      if result.Obj? && Truthy(Get(result, "success")) then
        var kept := Get(result, key);
        Outcome(Login(true, kept, Some(StorageText(kept))), step.store, step.events, Navigate(MAP_ROUTE))
      else
        Outcome(login, step.store, step.events, Alert(NO_SUCCESS))
  }

  /** `startRide` as written: it keeps `result.rideId`, a property the reply
      does not have, so a successful start leaves the ride id `undefined` and
      stores its string conversion, the text "undefined". */
  function StartRide(login: Login, code: string, store: Store, now: Clock): (r: Outcome)
    ensures r.login.sessionActive && !login.sessionActive ==> r.login.rideId == Undefined
    ensures DriverCodes.ValidateDriverCode(code) ==> r.login == Login(true, Undefined, Some("undefined"))
    ensures !DriverCodes.ValidateDriverCode(code) ==> r.login == login && r.store == store
  {
    StartRideReading("rideId", login, code, store, now)
  }

  /** `startRide` keeping the `id` the reply does carry: a successful start
      remembers, and stores, the id of the session it created. */
  function StartRideFixed(login: Login, code: string, store: Store, now: Clock): (r: Outcome)
    ensures DriverCodes.ValidateDriverCode(code) ==>
              && r.store.activeSession.Some?
              && var id := r.store.activeSession.value.id;
              r.login == Login(true, Str(id), Some(id))
    ensures !DriverCodes.ValidateDriverCode(code) ==> r.login == login && r.store == store
  {
    StartRideReading("id", login, code, store, now)
  }

  /** `stopRide`. Without a (truthy) ride id it only navigates away: no call
      is made and the flag stays as it was. Otherwise `stopRideSession` is
      called (its argument is ignored) and, since that does not throw, the
      flag, the ride id and the stored entry are cleared whatever its
      `success` says. */
  function StopRide(login: Login, store: Store): (r: Outcome)
    ensures r.ui == Navigate(CHOOSE_ROUTE)
    ensures !Truthy(login.rideId) ==> r.login == login && r.store == store && r.events == []
    ensures Truthy(login.rideId) ==>
      && r.login == SIGNED_OUT
      && r.store == store.(activeSession := None)
      && (store.activeSession.None? ==> r.events == [])
      && (store.activeSession.Some? ==>
            |r.events| == |store.sessionListeners|
            && forall i :: 0 <= i < |r.events| ==> r.events[i] == Event(store.sessionListeners[i], Null))
  {
    if !Truthy(login.rideId) then
      Outcome(login, store, [], Navigate(CHOOSE_ROUTE))
    else
      var step := StopRideSession(store);
      match step.result
      case Thrown(message) => Outcome(login, step.store, step.events, Alert(StopFailure(message)))
      case Ok(_) => Outcome(SIGNED_OUT, step.store, step.events, Navigate(CHOOSE_ROUTE))
  }

  // ---------------------------------------------------------------------------
  // The gate
  // ---------------------------------------------------------------------------

  /** The handler is the credential check in front of session creation: it
      changes the stored session only for a code the validator accepts, and
      then always. */
  lemma StartChangesSessionOnlyForValidCodes(key: string, login: Login, code: string, store: Store, now: Clock)
    requires store.activeSession.None?
    ensures StartRideReading(key, login, code, store, now).store.activeSession.Some?
            <==> DriverCodes.ValidateDriverCode(code)
  {
  }

  /** Letter case and padding do not stop a listed code, and the session
      records the code exactly as it was typed. */
  lemma PaddedCodeStartsSessionWithRawCode(login: Login, store: Store, now: Clock)
    ensures var r := StartRide(login, "  GoKu\t", store, now);
            r.ui == Navigate(MAP_ROUTE) && r.store.activeSession.value.driverCode == "  GoKu\t"
  {
    DriverCodes.PaddedCodeAccepted();
  }

  // ---------------------------------------------------------------------------
  // The ride id the handler keeps
  // ---------------------------------------------------------------------------

  /** As written, a successful start stores the text "undefined", and the
      component mounted again reads it back as a truthy string. */
  lemma RemountedRideIdIsUndefinedText(code: string, store: Store, now: Clock)
    requires DriverCodes.ValidateDriverCode(code)
    ensures var started := StartRide(SIGNED_OUT, code, store, now);
            && started.login.storedRideId == Some("undefined")
            && Remount(started.login) == Login(true, Str("undefined"), Some("undefined"))
  {
  }

  /** Hypothetical: the ride id kept in memory after a start could not
      publish a location for the session just started either. The source
      never publishes under it, since the navigation to the map unmounts the
      component; the map page publishes under the stored text instead
      (`StoredRideIdCannotPublish`). */
  lemma KeptRideIdCannotPublish(code: string, store: Store, now: Clock, lat: Value, lng: Value, later: Clock)
    requires DriverCodes.ValidateDriverCode(code)
    ensures var started := StartRide(SIGNED_OUT, code, store, now);
            PublishLocation(started.store, started.login.rideId, lat, lng, later).result.Thrown?
  {
  }

  /** As written, neither can the stored one: a location published under the
      text read back from storage is refused, because no session has the id
      "undefined", and the session's location never changes. */
  lemma StoredRideIdCannotPublish(code: string, store: Store, now: Clock, lat: Value, lng: Value, later: Clock)
    requires DriverCodes.ValidateDriverCode(code)
    ensures var started := StartRide(SIGNED_OUT, code, store, now);
            var published := PublishLocation(started.store, Str(started.login.storedRideId.value), lat, lng, later);
            && published.result == Thrown("No active session found for this ride")
            && published.store == started.store
  {
    var started := StartRide(SIGNED_OUT, code, store, now);
    assert started.login.storedRideId == Some("undefined");
    var id := started.store.activeSession.value.id;
    assert id != "undefined" by {
      assert id[0] == 's' by { assert id[..8] == "session_"; }
      assert "undefined"[0] == 'u';
    }
    assert Str(id) != Str(started.login.storedRideId.value);
  }

  /** As written, the stop is not affected: after the component mounts again
      the ride id is the truthy text "undefined", so stop still ends the
      session and tells every status listener. */
  lemma RemountedStopEndsSession(code: string, store: Store, now: Clock)
    requires DriverCodes.ValidateDriverCode(code)
    ensures var started := StartRide(SIGNED_OUT, code, store, now);
            var stopped := StopRide(Remount(started.login), started.store);
            && stopped.store.activeSession.None?
            && stopped.login == SIGNED_OUT
            && |stopped.events| == |store.sessionListeners|
  {
  }

  /** With the id kept, remounting restores exactly the state the start
      left. */
  lemma FixedRemountRestoresLogin(code: string, store: Store, now: Clock)
    requires DriverCodes.ValidateDriverCode(code)
    ensures var started := StartRideFixed(SIGNED_OUT, code, store, now);
            Remount(started.login) == started.login
  {
    var started := StartRideFixed(SIGNED_OUT, code, store, now);
    assert started.login.storedRideId.value != "" by {
      assert |started.store.activeSession.value.id| > 8;
    }
  }

  /** With the id kept, stop after a start, in the component mounted again,
      ends the session it started, tells every status listener and clears
      the stored entry. */
  lemma FixedStartThenStopEndsSession(code: string, store: Store, now: Clock)
    requires DriverCodes.ValidateDriverCode(code)
    ensures var started := StartRideFixed(SIGNED_OUT, code, store, now);
            var stopped := StopRide(Remount(started.login), started.store);
            && stopped.store.activeSession.None?
            && stopped.login == SIGNED_OUT
            && |stopped.events| == |store.sessionListeners|
            && (forall i :: 0 <= i < |stopped.events| ==> stopped.events[i] == Event(store.sessionListeners[i], Null))
  {
    FixedRemountRestoresLogin(code, store, now);
    var started := StartRideFixed(SIGNED_OUT, code, store, now);
    assert Truthy(started.login.rideId) by {
      assert |started.store.activeSession.value.id| > 8;
    }
  }

  /** With the id kept, the session just started accepts locations published
      under the text read back from storage, and records the latest one. */
  lemma FixedRideIdPublishes(code: string, store: Store, now: Clock, lat: Value, lng: Value, later: Clock)
    requires DriverCodes.ValidateDriverCode(code)
    ensures var started := StartRideFixed(SIGNED_OUT, code, store, now);
            var published := PublishLocation(started.store, Str(started.login.storedRideId.value), lat, lng, later);
            && published.result == Ok(SUCCESS)
            && published.store.activeSession.value.latestLocation == Some(Location(lat, lng, later.iso))
  {
  }

  // ---------------------------------------------------------------------------
  // The ride id an auto-start stores
  // ---------------------------------------------------------------------------

  /** The app's scheduler callback (src/App.js:51-55): after an auto-start it
      raises the shared flag and stores the returned `rideId` under
      `eppo_rideId`; otherwise it does nothing. The driver page's own ride id
      changes only when it mounts again. */
  function RecordAutoStart(login: Login, result: ScheduleService.AutoResult): (r: Login)
    requires result.Started? ==> !result.rideId.Num?
    ensures !result.Started? ==> r == login
    ensures result.Started? ==>
              r.sessionActive && r.rideId == login.rideId && r.storedRideId == Some(StorageText(result.rideId))
  {
    if result.Started? then Login(true, login.rideId, Some(StorageText(result.rideId))) else login
  }

  /** As written, an auto-start stores the text "undefined". The driver page
      mounted afterwards holds it as a truthy ride id: publishing under it is
      refused, while its stop ends the auto-session. */
  lemma AutoStartStoresUndefinedText(lastAutoSession: Option<string>, store: Store, now: ScheduleService.Now,
                                     login: Login, lat: Value, lng: Value, later: Clock)
    requires ScheduleService.GuardsPass(ScheduleService.AUTO_SESSION_CONFIG, lastAutoSession, false, now)
    ensures var t := ScheduleService.CheckAndStartAutoSession(ScheduleService.AUTO_SESSION_CONFIG, lastAutoSession, store, false, now);
            var mounted := Remount(RecordAutoStart(login, t.result));
            && t.result.Started?
            && mounted.rideId == Str("undefined")
            && PublishLocation(t.store, mounted.rideId, lat, lng, later).result.Thrown?
            && StopRide(mounted, t.store).store.activeSession.None?
  {
    var t := ScheduleService.CheckAndStartAutoSession(ScheduleService.AUTO_SESSION_CONFIG, lastAutoSession, store, false, now);
    var id := t.store.activeSession.value.id;
    assert id != "undefined" by {
      assert id[0] == 's' by { assert id[..8] == "session_"; }
      assert "undefined"[0] == 'u';
    }
  }

  /** With the id returned, the text an auto-start stores names the session
      it created, and the driver page mounted afterwards publishes under it. */
  lemma FixedAutoStartStoresSessionId(lastAutoSession: Option<string>, store: Store, now: ScheduleService.Now,
                                      login: Login, lat: Value, lng: Value, later: Clock)
    requires ScheduleService.GuardsPass(ScheduleService.AUTO_SESSION_CONFIG, lastAutoSession, false, now)
    ensures var fixed := ScheduleService.CheckAndStartAutoSessionFixed(ScheduleService.AUTO_SESSION_CONFIG, lastAutoSession, store, false, now);
            var mounted := Remount(RecordAutoStart(login, fixed.result));
            && fixed.result.Started?
            && mounted.storedRideId == Some(fixed.store.activeSession.value.id)
            && mounted.rideId == Str(fixed.store.activeSession.value.id)
            && PublishLocation(fixed.store, mounted.rideId, lat, lng, later).result == Ok(SUCCESS)
  {
    var fixed := ScheduleService.CheckAndStartAutoSessionFixed(ScheduleService.AUTO_SESSION_CONFIG, lastAutoSession, store, false, now);
    assert |fixed.store.activeSession.value.id| > 8;
  }
}
