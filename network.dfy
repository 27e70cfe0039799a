/** The `NetworkService` observable (app/services/api.ts:159-210): it tracks
    the platform's connection type, derives `connected` from it, and notifies
    listeners of every actual change. `notify` is modelled as appending to a
    ghost event log; the platform's connectivity calls are left to the caller,
    who passes in the connection type. */
module Network {

  /** The platform's `connectionType` enumeration. */
  datatype ConnectionType = None | Wifi | Mobile | Ethernet | Bluetooth | Vpn

  datatype Event =
    /** `NetworkConnectionStateEvent`, with the new `connected` and the current type. */
    | StateChanged(connected: bool, connectionType: ConnectionType)
    /** The `'connection'` event, with the new type and the resulting `connected`. */
    | ConnectionChanged(connectionType: ConnectionType, connected: bool)

  /** The observable state of the service. */
  datatype State = State(connectionType: ConnectionType, connected: bool, monitoring: bool)

  const Initial := State(None, false, false)

  /** Whether `connected` agrees with the connection type. */
  predicate Consistent(st: State) {
    st.connected == (st.connectionType != None)
  }

  // ---------------------------------------------------------------------
  // The operations as functions of the state: the new state and the events
  // emitted, in order.

  /** The `connected` setter. */
  function SetConnectedSpec(st: State, value: bool): (State, seq<Event>) {
    if st.connected != value then (st.(connected := value), [StateChanged(value, st.connectionType)])
    else (st, [])
  }

  /** The `connectionType` setter: the type is stored first, then `connected`
      is assigned (which may notify), then the `'connection'` event follows. */
  function SetConnectionTypeSpec(st: State, value: ConnectionType): (State, seq<Event>) {
    if st.connectionType == value then (st, [])
    else
      var (st', evs) := SetConnectedSpec(st.(connectionType := value), value != None);
      (st', evs + [ConnectionChanged(value, st'.connected)])
  }

  /** `start()`, with the type `getConnectionType()` reports. */
  function StartSpec(st: State, platformType: ConnectionType): (State, seq<Event>) {
    if st.monitoring then (st, [])
    else SetConnectionTypeSpec(st.(monitoring := true), platformType)
  }

  /** `stop()`. */
  function StopSpec(st: State): (State, seq<Event>) {
    if !st.monitoring then (st, []) else (st.(monitoring := false), [])
  }

  /** A series of connection-type callbacks. */
  function Changes(st: State, types: seq<ConnectionType>): (State, seq<Event>)
    decreases |types|
  {
    if types == [] then (st, [])
    else
      var (st1, evs1) := SetConnectionTypeSpec(st, types[0]);
      var (st2, evs2) := Changes(st1, types[1..]);
      (st2, evs1 + evs2)
  }

  // ---------------------------------------------------------------------
  // The class.

  class NetworkService {
    var connectionType: ConnectionType
    var connected: bool
    var monitoring: bool
    ghost var events: seq<Event>

    function Snapshot(): State
      reads this
    {
      State(connectionType, connected, monitoring)
    }

    constructor ()
      ensures Snapshot() == Initial && events == []
    {
      connectionType := None;
      connected := false;
      monitoring := false;
      events := [];
    }

    method SetConnected(value: bool)
      modifies this
      ensures Snapshot() == SetConnectedSpec(old(Snapshot()), value).0
      ensures events == old(events) + SetConnectedSpec(old(Snapshot()), value).1
    {
      if connected != value {
        connected := value;
        events := events + [StateChanged(value, connectionType)];
      }
    }

    method SetConnectionType(value: ConnectionType)
      modifies this
      ensures Snapshot() == SetConnectionTypeSpec(old(Snapshot()), value).0
      ensures events == old(events) + SetConnectionTypeSpec(old(Snapshot()), value).1
    {
      if connectionType != value {
        connectionType := value;
        SetConnected(value != None);
        events := events + [ConnectionChanged(value, connected)];
      }
    }

    method Start(platformType: ConnectionType)
      modifies this
      ensures Snapshot() == StartSpec(old(Snapshot()), platformType).0
      ensures events == old(events) + StartSpec(old(Snapshot()), platformType).1
    {
      if monitoring {
        return;
      }
      monitoring := true;
      SetConnectionType(platformType);
    }

    method Stop()
      modifies this
      ensures Snapshot() == StopSpec(old(Snapshot())).0
      ensures events == old(events)
    {
      if !monitoring {
        return;
      }
      monitoring := false;
    }

    method OnConnectionStateChange(newConnectionType: ConnectionType)
      modifies this
      ensures Snapshot() == SetConnectionTypeSpec(old(Snapshot()), newConnectionType).0
      ensures events == old(events) + SetConnectionTypeSpec(old(Snapshot()), newConnectionType).1
    {
      SetConnectionType(newConnectionType);
    }
  }

  // ---------------------------------------------------------------------
  // Properties.

  /** Assigning the current value to either setter changes nothing and emits
      nothing; any other value is stored. */
  lemma SettersNotifyOnlyOnChange(st: State, value: bool, t: ConnectionType)
    ensures SetConnectedSpec(st, value).0.connected == value
    ensures SetConnectedSpec(st, value).1 == [] <==> st.connected == value
    ensures SetConnectionTypeSpec(st, t).0.connectionType == t
    ensures SetConnectionTypeSpec(st, t).1 == [] <==> st.connectionType == t
    ensures st.connected == value ==> SetConnectedSpec(st, value).0 == st
    ensures st.connectionType == t ==> SetConnectionTypeSpec(st, t).0 == st
  {
  }

  /** A change of connection type sets `connected` to "the type is not none",
      leaves `monitoring` alone, and ends with one `'connection'` event; the
      state event precedes it exactly when `connected` flips. */
  lemma TypeChangeDerivesConnected(st: State, t: ConnectionType)
    requires st.connectionType != t
    ensures var (st', evs) := SetConnectionTypeSpec(st, t);
            && st' == State(t, t != None, st.monitoring)
            && Consistent(st')
            && evs == (if st.connected != (t != None) then [StateChanged(t != None, t)] else []) + [ConnectionChanged(t, t != None)]
  {
  }

  /** Setting the same value twice is the same as setting it once. */
  lemma SettersIdempotent(st: State, value: bool, t: ConnectionType)
    ensures var st1 := SetConnectedSpec(st, value).0; SetConnectedSpec(st1, value) == (st1, [])
    ensures var st1 := SetConnectionTypeSpec(st, t).0; SetConnectionTypeSpec(st1, t) == (st1, [])
  {
  }

  /** `start` and `stop` are idempotent, and `stop` emits nothing and keeps the
      connection state. */
  lemma StartStopIdempotent(st: State, t: ConnectionType, t': ConnectionType)
    ensures var st1 := StartSpec(st, t).0; st1.monitoring && StartSpec(st1, t') == (st1, [])
    ensures var st1 := StopSpec(st).0; !st1.monitoring && StopSpec(st1) == (st1, [])
    ensures StopSpec(st).1 == [] && StopSpec(st).0 == st.(monitoring := false)
  {
  }

  /** The number of `NetworkConnectionStateEvent`s in a log. */
  function StateEvents(evs: seq<Event>): nat {
    if evs == [] then 0 else (if evs[0].StateChanged? then 1 else 0) + StateEvents(evs[1..])
  }

  /** The number of `'connection'` events in a log. */
  function ConnectionEvents(evs: seq<Event>): nat {
    if evs == [] then 0 else (if evs[0].ConnectionChanged? then 1 else 0) + ConnectionEvents(evs[1..])
  }

  lemma {:induction false} EventCountsAppend(a: seq<Event>, b: seq<Event>)
    ensures StateEvents(a + b) == StateEvents(a) + StateEvents(b)
    ensures ConnectionEvents(a + b) == ConnectionEvents(a) + ConnectionEvents(b)
  {
    if a != [] {
      EventCountsAppend(a[1..], b);
      assert (a + b)[1..] == a[1..] + b;
    } else {
      assert a + b == b;
    }
  }

  /** How often "is there a connection" flips along a series of types that
      starts from `current`. */
  function ConnectedFlips(current: ConnectionType, types: seq<ConnectionType>): nat
    decreases |types|
  {
    if types == [] then 0
    else (if (current != None) != (types[0] != None) then 1 else 0) + ConnectedFlips(types[0], types[1..])
  }

  /** How often the type itself changes along the series. */
  function TypeChanges(current: ConnectionType, types: seq<ConnectionType>): nat
    decreases |types|
  {
    if types == [] then 0
    else (if current != types[0] then 1 else 0) + TypeChanges(types[0], types[1..])
  }

  /** Starting from a consistent state, a series of callbacks emits one
      `NetworkConnectionStateEvent` per flip of `connected` and one
      `'connection'` event per change of type, and leaves the state
      consistent with the last type. */
  lemma {:induction false} EventsCountChanges(st: State, types: seq<ConnectionType>)
    requires Consistent(st)
    ensures StateEvents(Changes(st, types).1) == ConnectedFlips(st.connectionType, types)
    ensures ConnectionEvents(Changes(st, types).1) == TypeChanges(st.connectionType, types)
    ensures Consistent(Changes(st, types).0)
    ensures types != [] ==> Changes(st, types).0.connectionType == types[|types| - 1]
    ensures Changes(st, types).0.monitoring == st.monitoring
    decreases |types|
  {
    if types != [] {
      var (st1, evs1) := SetConnectionTypeSpec(st, types[0]);
      EventsCountChanges(st1, types[1..]);
      EventCountsAppend(evs1, Changes(st1, types[1..]).1);
      if st.connectionType != types[0] {
        TypeChangeDerivesConnected(st, types[0]);
        if st.connected != (types[0] != None) {
          assert evs1 == [StateChanged(types[0] != None, types[0]), ConnectionChanged(types[0], types[0] != None)];
        } else {
          assert evs1 == [ConnectionChanged(types[0], types[0] != None)];
        }
      }
      if |types| > 1 {
        assert types[1..][|types[1..]| - 1] == types[|types| - 1];
      }
    }
  }

  /** A freshly created service that starts monitoring while the platform
      reports no connection emits nothing and stays disconnected. */
  lemma StartWithoutConnection()
    ensures StartSpec(Initial, None) == (State(None, false, true), [])
  {
  }
}
