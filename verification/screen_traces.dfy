/** Properties of the home screen over whole sequences of callbacks: what the
    sample series, the device list and the no-data check amount to after any
    interleaving of events. */
module ScreenTraces {
  import opened BleTypes
  import opened DeviceList
  import opened HomeScreen

  /** The values carried by the monitor callbacks, in delivery order. */
  function Samples(events: seq<Event>): seq<Sample>
    decreases |events|
  {
    if events == [] then []
    else (if events[0].MonitorValue? then [events[0].value] else []) + Samples(events[1..])
  }

  /** The payloads of the scan callbacks that carried no error. */
  function Reports(events: seq<Event>): seq<Option<Peripheral>>
    decreases |events|
  {
    if events == [] then []
    else (if events[0].DeviceReported? then [events[0].report] else []) + Reports(events[1..])
  }

  /** Some monitor callback of session k delivered a value. */
  predicate Delivered(events: seq<Event>, k: nat)
  {
    exists i :: 0 <= i < |events| && events[i].MonitorValue? && events[i].session == k
  }

  /** The series is exactly the earlier series followed by every monitored
      value in arrival order: nothing is dropped, reordered or reset, not
      even across reconnections. */
  lemma {:induction false} RunData(s: Screen, events: seq<Event>)
    ensures Run(s, events).data == s.data + Samples(events)
    decreases |events|
  {
    if events != [] {
      var e := events[0];
      var t := Step(s, e);
      var head := if e.MonitorValue? then [e.value] else [];
      var rest := Samples(events[1..]);
      RunCons(s, events);
      RunData(t, events[1..]);
      StepData(s, e);
      assert Run(s, events).data == t.data + rest;
      assert t.data == s.data + head;
      assert Samples(events) == head + rest;
      assert (s.data + head) + rest == s.data + (head + rest);
    }
  }

  /** Running a non-empty sequence is running its first callback, then the rest. */
  lemma RunCons(s: Screen, events: seq<Event>)
    requires events != []
    ensures Run(s, events) == Run(Step(s, events[0]), events[1..])
  {
  }

  /** One callback appends its value to the series if it is a monitor value,
      and leaves the series alone otherwise. */
  lemma StepData(s: Screen, e: Event)
    ensures Step(s, e).data == s.data + (if e.MonitorValue? then [e.value] else [])
  {
    if e.MonitorValue? { MonitorValueAppends(s, e.session, e.value); }
  }

  /** The displayed value is the last monitored value, if any arrived. */
  lemma {:induction false} RunSensorValue(s: Screen, events: seq<Event>)
    ensures Samples(events) == [] ==> Run(s, events).sensorValue == s.sensorValue
    ensures Samples(events) != [] ==>
      Run(s, events).sensorValue == Some(Samples(events)[|Samples(events)| - 1])
    decreases |events|
  {
    if events != [] {
      var e := events[0];
      var head := if e.MonitorValue? then [e.value] else [];
      var rest := Samples(events[1..]);
      RunCons(s, events);
      RunSensorValue(Step(s, e), events[1..]);
      StepSensorValue(s, e);
      assert Samples(events) == head + rest;
      if rest != [] {
        assert (head + rest)[|head + rest| - 1] == rest[|rest| - 1];
      }
    }
  }

  /** One callback displays its value if it is a monitor value and leaves the
      displayed value alone otherwise. */
  lemma StepSensorValue(s: Screen, e: Event)
    ensures Step(s, e).sensorValue == if e.MonitorValue? then Some(e.value) else s.sensorValue
  {
  }

  /** The device list after any callbacks is the fold of the scan reports
      alone; no other callback touches it. */
  lemma {:induction false} RunDevices(s: Screen, events: seq<Event>)
    ensures Run(s, events).devices == DiscoverAll(s.devices, Reports(events))
    decreases |events|
  {
    if events != [] {
      var e := events[0];
      var rest := Reports(events[1..]);
      RunCons(s, events);
      RunDevices(Step(s, e), events[1..]);
      StepDevices(s, e);
      if e.DeviceReported? {
        var all := [e.report] + rest;
        assert Reports(events) == all;
        assert all[0] == e.report && all[1..] == rest;
      } else {
        assert Reports(events) == rest;
      }
    }
  }

  /** Only a scan report changes the device list. */
  lemma StepDevices(s: Screen, e: Event)
    ensures Step(s, e).devices == if e.DeviceReported? then Discover(s.devices, e.report) else s.devices
  {
  }

  /** Which callbacks touch the connection fields and the spinner: only a
      connect outcome or a no-data timer changes `isConnected`; only a
      successful connect or a no-data timer changes `connectedDevice`; only
      the permission result, a scan error, the scan timer, a failed connect
      or a no-data timer changes `scanning`. */
  lemma StepConnection(s: Screen, e: Event)
    ensures Step(s, e).isConnected != s.isConnected ==>
      e.Connected? || e.ConnectFailed? || e.NoDataTimerFired?
    ensures Step(s, e).connectedDevice != s.connectedDevice ==>
      e.Connected? || e.NoDataTimerFired?
    ensures Step(s, e).scanning != s.scanning ==>
      e.PermissionsResolved? || e.ScanFailed? || e.ScanTimerFired? || e.ConnectFailed? || e.NoDataTimerFired?
  {
  }

  /** A callback that can change the connection: a connect outcome or a
      no-data timer. */
  predicate ConnectionEvent(e: Event)
  {
    e.Connected? || e.ConnectFailed? || e.NoDataTimerFired?
  }

  /** Callbacks other than connection events leave `isConnected` and
      `connectedDevice` as they were, however many arrive. */
  lemma {:induction false} RunKeepsConnection(s: Screen, events: seq<Event>)
    requires forall i :: 0 <= i < |events| ==> !ConnectionEvent(events[i])
    ensures Run(s, events).isConnected == s.isConnected
    ensures Run(s, events).connectedDevice == s.connectedDevice
    decreases |events|
  {
    if events != [] {
      RunCons(s, events);
      StepConnection(s, events[0]);
      assert forall i :: 0 <= i < |events[1..]| ==> events[1..][i] == events[i + 1];
      RunKeepsConnection(Step(s, events[0]), events[1..]);
    }
  }

  /** A successful connect is recorded before service discovery and stays
      recorded through discovery, monitor values and errors, scan reports
      and scan timers, until a connection event arrives. */
  lemma ConnectionSurvivesMonitoring(s: Screen, d: Peripheral, events: seq<Event>)
    requires forall i :: 0 <= i < |events| ==> !ConnectionEvent(events[i])
    ensures
      var c := Step(s, Connected(d));
      Run(c, [ServicesDiscovered] + events).connectedDevice == Some(d)
      && Run(c, [ServicesDiscovered] + events).isConnected
  {
    var c := Step(s, Connected(d));
    ConnectedBeforeDiscovery(s, d);
    KeepConnectionAfterDiscovery(c, events);
  }

  /** Helper: opening a session and then any non-connection callbacks keep
      the connection fields of the state they start from. */
  lemma KeepConnectionAfterDiscovery(c: Screen, events: seq<Event>)
    requires forall i :: 0 <= i < |events| ==> !ConnectionEvent(events[i])
    ensures Run(c, [ServicesDiscovered] + events).connectedDevice == c.connectedDevice
    ensures Run(c, [ServicesDiscovered] + events).isConnected == c.isConnected
  {
    var all := [ServicesDiscovered] + events;
    forall i | 0 <= i < |all| ensures !ConnectionEvent(all[i]) {
      if i > 0 { assert all[i] == events[i - 1]; }
    }
    RunKeepsConnection(c, all);
  }

  /** A value arriving after the no-data timer has given up on its session
      is still appended and displayed, but the screen stays disconnected
      and keeps scanning. */
  lemma LateValueAfterReset(s: Screen, k: nat, v: Sample)
    requires k < |s.dataReceived| && !s.dataReceived[k]
    ensures
      var r := Step(Step(s, NoDataTimerFired(k)), MonitorValue(k, v));
      && !r.isConnected && r.connectedDevice == None && r.scanning
      && r.data == s.data + [v] && r.sensorValue == Some(v)
  {
    var t := Step(s, NoDataTimerFired(k));
    NoDataTimerFiresOnlyWhenSilent(s, k);
    MonitorValueAppends(t, k, v);
  }

  /** Starting from the first render, the device list never holds two
      entries with the same id, nor one without a name and id, and its ids
      are exactly those of the acceptable scan reports. */
  lemma ReachableDevices(events: seq<Event>)
    ensures WellFormed(Run(Initial, events).devices)
    ensures Ids(Run(Initial, events).devices) == ReportedIds(Reports(events))
  {
    RunDevices(Initial, events);
    DiscoverAllIds([], Reports(events));
    assert Ids([]) == {};
  }

  /** A session's flag is set after a run exactly when it was set before or
      a monitor value of that session arrived; errors do not set it. */
  lemma {:induction false} RunFlags(s: Screen, events: seq<Event>, k: nat)
    requires k < |s.dataReceived|
    ensures k < |Run(s, events).dataReceived|
    ensures Run(s, events).dataReceived[k] <==> s.dataReceived[k] || Delivered(events, k)
    decreases |events|
  {
    if events != [] {
      var e := events[0];
      RunCons(s, events);
      RunFlags(Step(s, e), events[1..], k);
      StepFlag(s, e, k);
      DeliveredCons(events, k);
    }
  }

  /** One callback sets session k's flag only if it is a value for session k. */
  lemma StepFlag(s: Screen, e: Event, k: nat)
    requires k < |s.dataReceived|
    ensures k < |Step(s, e).dataReceived|
    ensures Step(s, e).dataReceived[k] <==> s.dataReceived[k] || (e.MonitorValue? && e.session == k)
  {
  }

  /** A value for session k is among the callbacks exactly when it is the
      first one or among the rest. */
  lemma DeliveredCons(events: seq<Event>, k: nat)
    requires events != []
    ensures Delivered(events, k)
        <==> (events[0].MonitorValue? && events[0].session == k) || Delivered(events[1..], k)
  {
    var tail := events[1..];
    if Delivered(tail, k) {
      var i :| 0 <= i < |tail| && tail[i].MonitorValue? && tail[i].session == k;
      assert events[i + 1] == tail[i];
    }
    if Delivered(events, k) && !(events[0].MonitorValue? && events[0].session == k) {
      var i :| 0 <= i < |events| && events[i].MonitorValue? && events[i].session == k;
      assert tail[i - 1] == events[i];
    }
  }

  /** End to end: after a `discoverAndMonitor` call opens session k and any
      further callbacks arrive, that session's no-data timer disconnects the
      screen and restarts scanning if and only if none of those callbacks
      was a value for session k. */
  lemma SilentSessionTimesOut(s: Screen, events: seq<Event>)
    ensures
      var k := |s.dataReceived|;
      var r := Run(Step(s, ServicesDiscovered), events);
      Step(r, NoDataTimerFired(k)) == if Delivered(events, k) then r else AbandonSilentDevice(r)
  {
    var k := |s.dataReceived|;
    var s1 := Step(s, ServicesDiscovered);
    ServicesDiscoveredOpensSession(s);
    assert s1.dataReceived[k] == false;
    RunFlags(s1, events, k);
    var r := Run(s1, events);
    NoDataTimerFiresOnlyWhenSilent(r, k);
  }
}
