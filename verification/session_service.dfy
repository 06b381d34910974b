/** The in-memory ride-session store and its observer registry
    (src/services/sessionService.js).

    The module-level state of the source (the active session record and the
    two listener lists) is one immutable `Store`; every exported operation is a
    function from a store to a `Step`: the next store, what the call returns or
    throws, and the callbacks it invoked, in invocation order. Callbacks are
    opaque: they are identified, never run, and are assumed not to call back
    into the store while being notified. */
module SessionService {
  import opened Wrappers
  import opened JsValue
  import JsString

  // ---------------------------------------------------------------------------
  // State
  // ---------------------------------------------------------------------------

  /** One reading of the clock: `Date.now()` in milliseconds and the
      `toISOString()` rendering of the same instant. */
  datatype Clock = Clock(millis: nat, iso: string)

  /** A position sample `{lat, lng, timestamp}`. The coordinates are whatever
      values the caller passed; the store never inspects them. */
  datatype Location = Location(lat: Value, lng: Value, timestamp: string)

  /** The session record the store keeps while a ride is active. */
  datatype Session = Session(
    id: string,
    driverId: string,
    driverCode: string,
    startTime: string,
    status: string,
    lastUpdated: string,
    latestLocation: Option<Location>)

  /** The identity of a JavaScript callback function. */
  datatype Callback = Callback(identity: nat)

  /** The wrapper closure `subscribeToLiveLocation` registers: it forwards a
      location to `callback` only while the active session's id is `rideId`.
      Each wrapper is a fresh function, told apart by `handle`. */
  datatype LocationListener = LocationListener(handle: nat, rideId: Value, callback: Callback)

  /** `activeSession`, `sessionListeners` and `locationListeners`, plus the
      source of fresh wrapper identities. */
  datatype Store = Store(
    activeSession: Option<Session>,
    sessionListeners: seq<Callback>,
    locationListeners: seq<LocationListener>,
    nextHandle: nat)

  /** One invocation `callback(payload)`. */
  datatype Event = Event(callback: Callback, payload: Value)

  /** The unsubscribe function a subscription returns. */
  datatype Unsubscribe = FromStatus(callback: Callback) | FromLocation(handle: nat)

  /** The effect of one call on the store. */
  datatype Step<R> = Step(store: Store, result: Result<R>, events: seq<Event>)

  const ACTIVE := "active"
  const DEFAULT_DRIVER_ID := "driver1"
  const INITIAL: Store := Store(None, [], [], 0)

  /** What a status subscriber is first told when no session is active. */
  const INACTIVE_STATUS: Value := Obj(map["active" := Bool(false), "rideId" := Null])

  const SUCCESS: Value := Obj(map["success" := Bool(true)])
  const NO_ACTIVE_SESSION: Value := Obj(map["success" := Bool(false), "error" := Str("No active session")])

  /** The store's invariant: a stored session is active and has an id, and
      every location wrapper has its own handle, below the next fresh one. */
  ghost predicate Valid(st: Store) {
    && (st.activeSession.Some? ==> st.activeSession.value.status == ACTIVE && st.activeSession.value.id != "")
    && (forall l :: l in st.locationListeners ==> l.handle < st.nextHandle)
    && DistinctHandles(st.locationListeners)
  }

  /** No two location wrappers share a handle. */
  ghost predicate DistinctHandles(ls: seq<LocationListener>) {
    ls == [] || ((forall l :: l in ls[1..] ==> l.handle != ls[0].handle) && DistinctHandles(ls[1..]))
  }

  // ---------------------------------------------------------------------------
  // Session ids
  // ---------------------------------------------------------------------------

  /** The id `session_${Date.now()}`. */
  function SessionIdAt(millis: nat): (id: string)
    ensures |id| > 8 && id[..8] == "session_"
    ensures JsString.AllDigits(id[8..])
  {
    "session_" + JsString.DecimalString(millis)
  }

  /** Sessions started at different milliseconds get different ids; two
      starts within the same millisecond get the same one. */
  lemma SessionIdsDistinct(m: nat, n: nat)
    ensures SessionIdAt(m) == SessionIdAt(n) <==> m == n
  {
    if SessionIdAt(m) == SessionIdAt(n) {
      assert JsString.DecimalString(m) == SessionIdAt(m)[8..];
      assert JsString.DecimalString(n) == SessionIdAt(n)[8..];
      JsString.DecimalInjective(m, n);
    }
  }

  // ---------------------------------------------------------------------------
  // Records as JavaScript objects
  // ---------------------------------------------------------------------------

  function LocationValue(l: Location): Value {
    Obj(map["lat" := l.lat, "lng" := l.lng, "timestamp" := Str(l.timestamp)])
  }

  function SessionFields(s: Session): map<string, Value> {
    map[
      "id" := Str(s.id),
      "driverId" := Str(s.driverId),
      "driverCode" := Str(s.driverCode),
      "startTime" := Str(s.startTime),
      "status" := Str(s.status),
      "lastUpdated" := Str(s.lastUpdated),
      "latestLocation" := (if s.latestLocation.Some? then LocationValue(s.latestLocation.value) else Null)
    ]
  }

  /** The object `{ ...session }`. */
  function SessionValue(s: Session): Value {
    Obj(SessionFields(s))
  }

  function StrField(m: map<string, Value>, key: string): Option<string> {
    if key in m && m[key].Str? then Some(m[key].s) else None
  }

  /** Reads a location back from an object with `lat`, `lng` and a string
      `timestamp`; other properties are ignored. */
  function LocationOf(v: Value): Option<Location> {
    if v.Obj? && "lat" in v.fields && "lng" in v.fields && StrField(v.fields, "timestamp").Some? then
      Some(Location(v.fields["lat"], v.fields["lng"], StrField(v.fields, "timestamp").value))
    else
      None
  }

  /** Reads a session back from an object carrying the session properties;
      other properties (such as `success`) are ignored. */
  function SessionOf(v: Value): Option<Session> {
    if !v.Obj? then None
    else
      var m := v.fields;
      if && StrField(m, "id").Some? && StrField(m, "driverId").Some? && StrField(m, "driverCode").Some?
         && StrField(m, "startTime").Some? && StrField(m, "status").Some? && StrField(m, "lastUpdated").Some?
         && "latestLocation" in m && (m["latestLocation"].Null? || LocationOf(m["latestLocation"]).Some?)
      then
        Some(Session(
          StrField(m, "id").value, StrField(m, "driverId").value, StrField(m, "driverCode").value,
          StrField(m, "startTime").value, StrField(m, "status").value, StrField(m, "lastUpdated").value,
          if m["latestLocation"].Null? then None else LocationOf(m["latestLocation"])))
      else None
  }

  /** A copy `{ ...session }` carries every field of the session. */
  lemma SessionRoundTrip(s: Session)
    ensures SessionOf(SessionValue(s)) == Some(s)
  {
    if s.latestLocation.Some? {
      assert LocationOf(LocationValue(s.latestLocation.value)) == s.latestLocation;
    }
  }

  // ---------------------------------------------------------------------------
  // Notification
  // ---------------------------------------------------------------------------

  /** `listeners.forEach(listener => listener(payload))`. */
  function Broadcast(cbs: seq<Callback>, payload: Value): (r: seq<Event>)
    ensures |r| == |cbs|
    ensures forall i :: 0 <= i < |cbs| ==> r[i] == Event(cbs[i], payload)
  {
    if cbs == [] then [] else [Event(cbs[0], payload)] + Broadcast(cbs[1..], payload)
  }

  /** The location wrapper `l` forwards while the store's active session has
      the id it subscribed to. */
  predicate Receives(st: Store, l: LocationListener) {
    st.activeSession.Some? && Str(st.activeSession.value.id) == l.rideId
  }

  /** `locationListeners.forEach(listener => listener(location))` with the
      active session id at delivery time being `activeId`: each wrapper whose
      `rideId` matches calls its callback, in registration order. */
  function FanOutLocation(ls: seq<LocationListener>, activeId: string, payload: Value): (r: seq<Event>)
    ensures |r| <= |ls|
  {
    if ls == [] then []
    else
      var rest := FanOutLocation(ls[1..], activeId, payload);
      if ls[0].rideId == Str(activeId) then [Event(ls[0].callback, payload)] + rest else rest
  }

  /** The fan-out reaches exactly the wrappers whose ride id is the active
      id, and only with the location. */
  lemma {:induction false} FanOutDelivers(ls: seq<LocationListener>, activeId: string, payload: Value)
    ensures var r := FanOutLocation(ls, activeId, payload);
            && (forall e :: e in r ==> e.payload == payload)
            && (forall e :: e in r ==> exists l :: l in ls && l.rideId == Str(activeId) && l.callback == e.callback)
            && (forall l :: l in ls && l.rideId == Str(activeId) ==> Event(l.callback, payload) in r)
    decreases |ls|
  {
    if ls != [] {
      FanOutDelivers(ls[1..], activeId, payload);
      forall l | l in ls
        ensures l != ls[0] ==> l in ls[1..]
      {
      }
    }
  }

  /** Delivery follows registration order: the calls for the wrappers
      registered first come first, one call per matching wrapper (two
      wrappers on the same callback mean two calls). */
  lemma {:induction false} FanOutAppend(a: seq<LocationListener>, b: seq<LocationListener>, activeId: string, payload: Value)
    ensures FanOutLocation(a + b, activeId, payload) == FanOutLocation(a, activeId, payload) + FanOutLocation(b, activeId, payload)
    decreases |a|
  {
    if a == [] {
      assert a + b == b;
    } else {
      assert (a + b)[0] == a[0] && (a + b)[1..] == a[1..] + b;
      FanOutAppend(a[1..], b, activeId, payload);
    }
  }

  /** One wrapper yields one call when its ride id is the active id, and none
      otherwise. */
  lemma FanOutSingle(l: LocationListener, activeId: string, payload: Value)
    ensures FanOutLocation([l], activeId, payload) == if l.rideId == Str(activeId) then [Event(l.callback, payload)] else []
  {
    assert [l][1..] == [];
  }

  // ---------------------------------------------------------------------------
  // Operations
  // ---------------------------------------------------------------------------

  /** `startRideSession(driverCode, driverId)`. An empty code throws and
      changes nothing; otherwise a fresh active session replaces whatever was
      stored (there is no conflict check), every status listener is told about
      it in registration order, and the reply is `{success: true, ...session}`:
      it carries `id`, not `rideId`. */
  function StartRideSession(st: Store, driverCode: string, driverId: string, now: Clock): (r: Step<Value>)
    ensures driverCode == "" ==> r == Step(st, Thrown("Driver code is required"), [])
    ensures driverCode != "" ==>
      && r.store.activeSession.Some?
      && var s := r.store.activeSession.value;
      && s.id == SessionIdAt(now.millis) && s.status == ACTIVE && s.latestLocation.None?
      && s.driverCode == driverCode && s.driverId == driverId
      && s.startTime == now.iso && s.lastUpdated == now.iso
      && r.store.sessionListeners == st.sessionListeners
      && r.store.locationListeners == st.locationListeners
      && r.store.nextHandle == st.nextHandle
      && |r.events| == |st.sessionListeners|
      && (forall i :: 0 <= i < |r.events| ==> r.events[i] == Event(st.sessionListeners[i], SessionValue(s)))
      && r.result.Ok? && r.result.value.Obj?
      && r.result.value.fields.Keys == SessionFields(s).Keys + {"success"}
      && r.result.value.fields["success"] == Bool(true)
      && r.result.value.fields["id"] == Str(s.id)
      && "rideId" !in r.result.value.fields
      && (forall k :: k in r.result.value.fields ==> !r.result.value.fields[k].Num?)
      && SessionOf(r.result.value) == Some(s)
  {
    if driverCode == "" then
      Step(st, Thrown("Driver code is required"), [])
    else
      var s := Session(SessionIdAt(now.millis), driverId, driverCode, now.iso, ACTIVE, now.iso, None);
      var reply := Obj(SessionFields(s)["success" := Bool(true)]);
      assert SessionOf(reply) == Some(s);
      Step(st.(activeSession := Some(s)), Ok(reply), Broadcast(st.sessionListeners, SessionValue(s)))
  }

  /** `stopRideSession()`. It takes no argument: whatever a caller passes is
      ignored. With no active session it reports failure and notifies nobody;
      otherwise the session is dropped and every status listener receives
      `null`, in registration order. */
  function StopRideSession(st: Store): (r: Step<Value>)
    ensures st.activeSession.None? ==> r == Step(st, Ok(NO_ACTIVE_SESSION), [])
    ensures st.activeSession.Some? ==>
      && r.store == st.(activeSession := None)
      && r.result == Ok(SUCCESS)
      && |r.events| == |st.sessionListeners|
      && (forall i :: 0 <= i < |r.events| ==> r.events[i] == Event(st.sessionListeners[i], Null))
  {
    if st.activeSession.None? then
      Step(st, Ok(NO_ACTIVE_SESSION), [])
    else
      Step(st.(activeSession := None), Ok(SUCCESS), Broadcast(st.sessionListeners, Null))
  }

  /** `getSessionStatus()`: `null` exactly when no session is active, and
      otherwise a copy from which the stored session is read back intact. */
  function GetSessionStatus(st: Store): (r: Value)
    ensures r == Null <==> st.activeSession.None?
    ensures st.activeSession.Some? ==> SessionOf(r) == st.activeSession
  {
    if st.activeSession.Some? then
      SessionRoundTrip(st.activeSession.value);
      SessionValue(st.activeSession.value)
    else
      Null
  }

  /** `publishLocation(rideId, lat, lng)`. It throws unless a session is
      active and its id is `rideId`. On success only the session's
      `latestLocation` and `lastUpdated` change, and the new location reaches
      exactly the wrappers subscribed to this session's id. */
  function PublishLocation(st: Store, rideId: Value, lat: Value, lng: Value, now: Clock): (r: Step<Value>)
    ensures !(st.activeSession.Some? && Str(st.activeSession.value.id) == rideId) ==>
              r == Step(st, Thrown("No active session found for this ride"), [])
    ensures st.activeSession.Some? && Str(st.activeSession.value.id) == rideId ==>
      && var old_ := st.activeSession.value;
      && r.result == Ok(SUCCESS)
      && r.store.activeSession.Some?
      && var s := r.store.activeSession.value;
      && s.id == old_.id && s.driverId == old_.driverId && s.driverCode == old_.driverCode
      && s.startTime == old_.startTime && s.status == old_.status
      && s.latestLocation == Some(Location(lat, lng, now.iso)) && s.lastUpdated == now.iso
      && r.store.sessionListeners == st.sessionListeners
      && r.store.locationListeners == st.locationListeners
      && r.store.nextHandle == st.nextHandle
      && r.events == FanOutLocation(st.locationListeners, old_.id, LocationValue(Location(lat, lng, now.iso)))
      && (forall e :: e in r.events ==> e.payload == LocationValue(Location(lat, lng, now.iso)))
      && (forall e :: e in r.events ==>
            exists l :: l in st.locationListeners && Receives(r.store, l) && l.callback == e.callback)
      && (forall l :: l in st.locationListeners && Receives(r.store, l) ==>
            Event(l.callback, LocationValue(Location(lat, lng, now.iso))) in r.events)
  {
    if st.activeSession.None? || Str(st.activeSession.value.id) != rideId then
      Step(st, Thrown("No active session found for this ride"), [])
    else
      var location := Location(lat, lng, now.iso);
      var s := st.activeSession.value.(latestLocation := Some(location), lastUpdated := now.iso);
      FanOutDelivers(st.locationListeners, s.id, LocationValue(location));
      Step(st.(activeSession := Some(s)), Ok(SUCCESS),
           FanOutLocation(st.locationListeners, s.id, LocationValue(location)))
  }

  /** `subscribeToSessionStatus(callback)`: exactly one immediate call, with a
      copy of the active session or `{active: false, rideId: null}`, and then
      the callback is registered last. */
  function SubscribeToSessionStatus(st: Store, cb: Callback): (r: Step<Unsubscribe>)
    ensures r.result == Ok(FromStatus(cb))
    ensures r.store == st.(sessionListeners := st.sessionListeners + [cb])
    ensures |r.events| == 1 && r.events[0].callback == cb
    ensures st.activeSession.Some? ==> SessionOf(r.events[0].payload) == st.activeSession
    ensures st.activeSession.None? ==> r.events[0].payload == INACTIVE_STATUS
  {
    var registered := st.(sessionListeners := st.sessionListeners + [cb]);
    if st.activeSession.Some? then
      SessionRoundTrip(st.activeSession.value);
      Step(registered, Ok(FromStatus(cb)), [Event(cb, SessionValue(st.activeSession.value))])
    else
      Step(registered, Ok(FromStatus(cb)), [Event(cb, INACTIVE_STATUS)])
  }

  /** `subscribeToLiveLocation(rideId, callback)`: the latest location is
      replayed at once only when the active session has id `rideId` and has a
      location; then a fresh wrapper is registered last. */
  function SubscribeToLiveLocation(st: Store, rideId: Value, cb: Callback): (r: Step<Unsubscribe>)
    ensures r.result == Ok(FromLocation(st.nextHandle))
    ensures r.store.activeSession == st.activeSession && r.store.sessionListeners == st.sessionListeners
    ensures r.store.locationListeners == st.locationListeners + [LocationListener(st.nextHandle, rideId, cb)]
    ensures r.store.nextHandle == st.nextHandle + 1
    ensures |r.events| <= 1
    ensures |r.events| == 1 <==>
              st.activeSession.Some? && Str(st.activeSession.value.id) == rideId
              && st.activeSession.value.latestLocation.Some?
    ensures |r.events| == 1 ==>
              r.events[0] == Event(cb, LocationValue(st.activeSession.value.latestLocation.value))
  {
    var replay :=
      if st.activeSession.Some? && Str(st.activeSession.value.id) == rideId && st.activeSession.value.latestLocation.Some?
      then [Event(cb, LocationValue(st.activeSession.value.latestLocation.value))]
      else [];
    var listener := LocationListener(st.nextHandle, rideId, cb);
    Step(st.(locationListeners := st.locationListeners + [listener], nextHandle := st.nextHandle + 1),
         Ok(FromLocation(st.nextHandle)), replay)
  }

  /** `sessionListeners.filter(cb => cb !== callback)`: every registration of
      the same function goes. */
  function RemoveCallback(cbs: seq<Callback>, cb: Callback): (r: seq<Callback>)
    ensures cb !in r
    ensures forall c :: c != cb ==> (c in r <==> c in cbs)
    ensures |r| <= |cbs|
    ensures cb !in cbs ==> r == cbs
    ensures multiset(r) == multiset(cbs)[cb := 0]
  {
    if cbs == [] then []
    else
      assert cbs == [cbs[0]] + cbs[1..];
      if cbs[0] == cb then RemoveCallback(cbs[1..], cb)
      else [cbs[0]] + RemoveCallback(cbs[1..], cb)
  }

  /** `locationListeners.filter(cb => cb !== listener)` for the wrapper with
      handle `h`. */
  function RemoveHandle(ls: seq<LocationListener>, h: nat): (r: seq<LocationListener>)
    ensures forall l :: l in r ==> l.handle != h
    ensures forall l: LocationListener :: l.handle != h ==> (l in r <==> l in ls)
    ensures |r| <= |ls|
    ensures (forall l :: l in ls ==> l.handle != h) ==> r == ls
  {
    if ls == [] then []
    else if ls[0].handle == h then RemoveHandle(ls[1..], h)
    else [ls[0]] + RemoveHandle(ls[1..], h)
  }

  /** The status filter keeps the remaining listeners in registration order:
      it works piece by piece. */
  lemma {:induction false} RemoveCallbackAppend(a: seq<Callback>, b: seq<Callback>, cb: Callback)
    ensures RemoveCallback(a + b, cb) == RemoveCallback(a, cb) + RemoveCallback(b, cb)
    decreases |a|
  {
    if a == [] {
      assert a + b == b;
    } else {
      assert (a + b)[0] == a[0] && (a + b)[1..] == a[1..] + b;
      RemoveCallbackAppend(a[1..], b, cb);
    }
  }

  /** The location filter keeps the remaining wrappers in registration
      order: it works piece by piece. */
  lemma {:induction false} RemoveHandleAppend(a: seq<LocationListener>, b: seq<LocationListener>, h: nat)
    ensures RemoveHandle(a + b, h) == RemoveHandle(a, h) + RemoveHandle(b, h)
    decreases |a|
  {
    if a == [] {
      assert a + b == b;
    } else {
      assert (a + b)[0] == a[0] && (a + b)[1..] == a[1..] + b;
      RemoveHandleAppend(a[1..], b, h);
    }
  }

  /** Removing the one registration of a callback leaves the listeners
      before and after it, in order. */
  lemma RemoveOnlyRegistration(a: seq<Callback>, cb: Callback, b: seq<Callback>)
    requires cb !in a && cb !in b
    ensures RemoveCallback(a + [cb] + b, cb) == a + b
  {
    assert [cb][1..] == [];
    assert RemoveCallback([cb], cb) == [];
    assert RemoveCallback(a, cb) == a;
    assert RemoveCallback(b, cb) == b;
    RemoveCallbackAppend(a, [cb], cb);
    assert RemoveCallback(a + [cb], cb) == a;
    RemoveCallbackAppend(a + [cb], b, cb);
  }

  /** A start's notifications are the broadcast of the new session to the
      status listeners. */
  lemma StartBroadcasts(st: Store, code: string, driverId: string, now: Clock)
    requires code != ""
    ensures var step := StartRideSession(st, code, driverId, now);
            step.events == Broadcast(st.sessionListeners, SessionValue(step.store.activeSession.value))
  {
    var step := StartRideSession(st, code, driverId, now);
    var expected := Broadcast(st.sessionListeners, SessionValue(step.store.activeSession.value));
    assert |step.events| == |expected|;
    forall i | 0 <= i < |expected|
      ensures step.events[i] == expected[i]
    {
    }
  }

  /** Unsubscribing one status listener leaves the others to be told, in
      their registration order, by the next start. */
  lemma UnsubscribeKeepsNotificationOrder(a: seq<Callback>, cb: Callback, b: seq<Callback>,
                                          st: Store, code: string, driverId: string, now: Clock)
    requires cb !in a && cb !in b && st.sessionListeners == a + [cb] + b && code != ""
    ensures var st' := CallUnsubscribe(st, FromStatus(cb));
            var step := StartRideSession(st', code, driverId, now);
            step.events == Broadcast(a + b, SessionValue(step.store.activeSession.value))
  {
    var st' := CallUnsubscribe(st, FromStatus(cb));
    RemoveOnlyRegistration(a, cb, b);
    assert st'.sessionListeners == a + b;
    StartBroadcasts(st', code, driverId, now);
  }

  /** Calling an unsubscribe function. */
  function CallUnsubscribe(st: Store, u: Unsubscribe): (r: Store)
    ensures r.activeSession == st.activeSession && r.nextHandle == st.nextHandle
    ensures u.FromStatus? ==>
      && r.locationListeners == st.locationListeners
      && r.sessionListeners == RemoveCallback(st.sessionListeners, u.callback)
      && u.callback !in r.sessionListeners
      && (forall c :: c != u.callback ==> (c in r.sessionListeners <==> c in st.sessionListeners))
    ensures u.FromLocation? ==>
      && r.sessionListeners == st.sessionListeners
      && r.locationListeners == RemoveHandle(st.locationListeners, u.handle)
      && (forall l :: l in r.locationListeners ==> l.handle != u.handle)
      && (forall l: LocationListener :: l.handle != u.handle ==> (l in r.locationListeners <==> l in st.locationListeners))
  {
    match u
    case FromStatus(cb) => st.(sessionListeners := RemoveCallback(st.sessionListeners, cb))
    case FromLocation(h) => st.(locationListeners := RemoveHandle(st.locationListeners, h))
  }

  // ---------------------------------------------------------------------------
  // Properties
  // ---------------------------------------------------------------------------

  /** Every operation keeps the store's invariant. */
  lemma OperationsPreserveValid(st: Store, code: string, driverId: string, now: Clock,
                                rideId: Value, lat: Value, lng: Value, cb: Callback, u: Unsubscribe)
    requires Valid(st)
    ensures Valid(StartRideSession(st, code, driverId, now).store)
    ensures Valid(StopRideSession(st).store)
    ensures Valid(PublishLocation(st, rideId, lat, lng, now).store)
    ensures Valid(SubscribeToSessionStatus(st, cb).store)
    ensures Valid(SubscribeToLiveLocation(st, rideId, cb).store)
    ensures Valid(CallUnsubscribe(st, u))
  {
    AppendFreshKeepsDistinct(st.locationListeners, LocationListener(st.nextHandle, rideId, cb), st.nextHandle);
    if u.FromLocation? {
      RemoveHandleKeepsDistinct(st.locationListeners, u.handle);
    }
  }

  lemma {:induction false} AppendFreshKeepsDistinct(ls: seq<LocationListener>, x: LocationListener, bound: nat)
    requires DistinctHandles(ls) && (forall l :: l in ls ==> l.handle < bound) && x.handle == bound
    ensures DistinctHandles(ls + [x])
    decreases |ls|
  {
    if ls == [] {
      assert [] + [x] == [x];
    } else {
      assert (ls + [x])[1..] == ls[1..] + [x];
      AppendFreshKeepsDistinct(ls[1..], x, bound);
    }
  }

  lemma {:induction false} RemoveHandleKeepsDistinct(ls: seq<LocationListener>, h: nat)
    requires DistinctHandles(ls)
    ensures DistinctHandles(RemoveHandle(ls, h))
    decreases |ls|
  {
    if ls != [] {
      RemoveHandleKeepsDistinct(ls[1..], h);
      if ls[0].handle != h {
        var r := RemoveHandle(ls, h);
        assert r[1..] == RemoveHandle(ls[1..], h);
      }
    }
  }

  /** Starting succeeds whether or not a session is already active, and the
      new session does not depend on the one it replaces. */
  lemma StartOverwrites(st: Store, previous: Session, code: string, driverId: string, now: Clock)
    requires code != ""
    ensures StartRideSession(st.(activeSession := Some(previous)), code, driverId, now).result.Ok?
    ensures StartRideSession(st.(activeSession := Some(previous)), code, driverId, now).store.activeSession
         == StartRideSession(st.(activeSession := None), code, driverId, now).store.activeSession
  {
  }

  /** A status subscriber's first event is what `getSessionStatus` returns at
      that moment, or the inactive marker when that is `null`. */
  lemma FirstStatusEventMatchesStatus(st: Store, cb: Callback)
    ensures GetSessionStatus(st) != Null ==> SubscribeToSessionStatus(st, cb).events[0].payload == GetSessionStatus(st)
    ensures GetSessionStatus(st) == Null ==> SubscribeToSessionStatus(st, cb).events[0].payload == INACTIVE_STATUS
  {
  }

  /** Unsubscribing twice is the same as unsubscribing once. */
  lemma UnsubscribeIdempotent(st: Store, u: Unsubscribe)
    ensures CallUnsubscribe(CallUnsubscribe(st, u), u) == CallUnsubscribe(st, u)
  {
  }

  /** After its unsubscribe function ran, a status callback is not called by
      any later start or stop. */
  lemma UnsubscribedStatusCallbackIsSilent(st: Store, cb: Callback, code: string, driverId: string, now: Clock)
    ensures var st' := CallUnsubscribe(st, FromStatus(cb));
            && (forall e :: e in StartRideSession(st', code, driverId, now).events ==> e.callback != cb)
            && (forall e :: e in StopRideSession(st').events ==> e.callback != cb)
  {
    var st' := CallUnsubscribe(st, FromStatus(cb));
    forall e | e in StartRideSession(st', code, driverId, now).events
      ensures e.callback != cb
    {
      var i :| 0 <= i < |StartRideSession(st', code, driverId, now).events|
               && StartRideSession(st', code, driverId, now).events[i] == e;
      assert e.callback == st'.sessionListeners[i];
    }
    forall e | e in StopRideSession(st').events
      ensures e.callback != cb
    {
      var i :| 0 <= i < |StopRideSession(st').events| && StopRideSession(st').events[i] == e;
      assert e.callback == st'.sessionListeners[i];
    }
  }

  /** A location subscription is bound to the session it names: once a start
      at a different millisecond has replaced that session, the wrapper stops
      forwarding. */
  lemma NewSessionSilencesOldLocationSubscribers(st: Store, m: nat, l: LocationListener,
                                                 code: string, driverId: string, now: Clock)
    requires l.rideId == Str(SessionIdAt(m)) && m != now.millis && code != ""
    ensures !Receives(StartRideSession(st, code, driverId, now).store, l)
  {
    SessionIdsDistinct(m, now.millis);
  }

  /** Ids are only as unique as the clock: a start within the same
      millisecond as the subscribed session keeps the old wrapper forwarding
      the new session's locations. */
  lemma SameMillisecondStartKeepsOldSubscribers(st: Store, l: LocationListener,
                                                code: string, driverId: string, now: Clock)
    requires l.rideId == Str(SessionIdAt(now.millis)) && code != ""
    ensures Receives(StartRideSession(st, code, driverId, now).store, l)
  {
  }

  /** A successful publish reaches a subscriber exactly when it subscribed to
      the active session's id: publishing under one id never delivers to a
      wrapper holding another. */
  lemma PublishReachesOnlyMatchingSubscribers(st: Store, rideId: Value, lat: Value, lng: Value, now: Clock,
                                              cb: Callback)
    requires PublishLocation(st, rideId, lat, lng, now).result.Ok?
    requires forall l :: l in st.locationListeners && l.callback == cb ==> l.rideId != rideId
    ensures forall e :: e in PublishLocation(st, rideId, lat, lng, now).events ==> e.callback != cb
  {
  }

  /** The store as the module is loaded satisfies the invariant; with
      `OperationsPreserveValid`, every reachable store holds at most one
      session, and that session is active. */
  lemma InitialValid()
    ensures Valid(INITIAL)
  {
  }
}
