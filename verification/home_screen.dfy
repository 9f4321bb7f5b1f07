/** The state of the BLE home screen and how each callback changes it, as a
    pure reducer `Step(screen, event)`. The BLE library, the permission
    dialog and the two `setTimeout`s are outside the model: their outcomes
    arrive as events. */
module HomeScreen {
  import opened BleTypes
  import opened DeviceList

  /** What `requestPermissions` learns: on Android, the status of each
      requested permission; elsewhere nothing is asked. */
  datatype PermissionOutcome = AndroidResult(statuses: seq<PermissionStatus>) | OtherPlatform

  /** The six `useState` fields of the screen, plus the `dataReceived` flag
      of every `discoverAndMonitor` call made so far (each call has its own
      flag, read by its own no-data timer; `dataReceived[k]` is the flag of
      the k-th call). */
  datatype Screen = Screen(
    devices: seq<Peripheral>,
    connectedDevice: Option<Peripheral>,
    data: seq<Sample>,
    sensorValue: Option<Sample>,
    isConnected: bool,
    scanning: bool,
    dataReceived: seq<bool>)

  /** The callbacks that reach the screen. A monitor callback or no-data
      timer names the `discoverAndMonitor` call (session) that installed it. */
  datatype Event =
    | PermissionsResolved(outcome: PermissionOutcome)
    | ScanFailed
    | DeviceReported(report: Option<Peripheral>)
    | ScanTimerFired
    | DeviceSelected(selected: Peripheral)
    | Connected(device: Peripheral)
    | ServicesDiscovered
    | ConnectFailed
    | MonitorValue(session: nat, value: Sample)
    | MonitorError(session: nat)
    | NoDataTimerFired(session: nat)

  /** The screen as first rendered. */
  const Initial := Screen([], None, [], None, false, false, [])

  /** `Object.values(granted).every(status => status === GRANTED)`. */
  function EveryGranted(statuses: seq<PermissionStatus>): (all: bool)
    ensures all <==> forall i :: 0 <= i < |statuses| ==> statuses[i] == Granted
  {
    if statuses == [] then true
    else if statuses[0] != Granted then false
    else
      var rest := EveryGranted(statuses[1..]);
      assert forall i :: 1 <= i < |statuses| ==> statuses[i] == statuses[1..][i - 1];
      rest
  }

  /** The permission gate: scanning may start on a non-Android platform, or
      on Android when every requested permission was granted. */
  predicate PermitsScan(outcome: PermissionOutcome): (permits: bool)
    ensures outcome.OtherPlatform? ==> permits
    ensures outcome.AndroidResult? ==>
      (permits <==> forall i :: 0 <= i < |outcome.statuses| ==> outcome.statuses[i] == Granted)
  {
    match outcome
    case OtherPlatform => true
    case AndroidResult(statuses) => EveryGranted(statuses)
  }

  /** `startScan`: the spinner turns on; the list found so far is kept. The
      library scan and the 15 s timer it starts are outside the screen state. */
  function StartScan(s: Screen): (r: Screen)
    ensures r.scanning
    ensures r.(scanning := s.scanning) == s
  {
    s.(scanning := true)
  }

  /** `handleNewValue`: the value becomes the displayed one and is appended
      to the series. */
  function HandleNewValue(s: Screen, v: Sample): (r: Screen)
    ensures |r.data| == |s.data| + 1
    ensures r.data[..|s.data|] == s.data
    ensures r.data[|s.data|] == v
    ensures r.sensorValue == Some(v)
    ensures r.(data := s.data, sensorValue := s.sensorValue) == s
  {
    s.(sensorValue := Some(v), data := s.data + [v])
  }

  /** A monitor callback with data sets its session's `dataReceived` flag. */
  function MarkReceived(flags: seq<bool>, k: nat): (r: seq<bool>)
    ensures |r| == |flags|
    ensures forall j :: 0 <= j < |flags| ==> r[j] == (flags[j] || j == k)
  {
    if k < |flags| then flags[k := true] else flags
  }

  /** The no-data timer's recovery: drop the connection and scan again. */
  function AbandonSilentDevice(s: Screen): (r: Screen)
    ensures !r.isConnected && r.connectedDevice == None && r.scanning
    ensures r.devices == s.devices && r.data == s.data && r.sensorValue == s.sensorValue
    ensures r.dataReceived == s.dataReceived
  {
    StartScan(s.(isConnected := false, connectedDevice := None))
  }

  /** The flags of earlier sessions only ever go from false to true. */
  predicate FlagsGrow(before: seq<bool>, after: seq<bool>)
  {
    && |before| <= |after|
    && forall k :: 0 <= k < |before| && before[k] ==> after[k]
  }

  /** Folds one callback into the screen state. */
  function Step(s: Screen, e: Event): (r: Screen)
    ensures s.data <= r.data
    ensures s.devices <= r.devices
    ensures WellFormed(s.devices) ==> WellFormed(r.devices)
    ensures FlagsGrow(s.dataReceived, r.dataReceived)
  {
    match e
    case PermissionsResolved(outcome) =>
      if PermitsScan(outcome) then StartScan(s) else s
    case ScanFailed =>
      s.(scanning := false)
    case DeviceReported(device) =>
      s.(devices := Discover(s.devices, device))
    case ScanTimerFired =>
      s.(scanning := false)
    case DeviceSelected(_) =>
      s
    case Connected(device) =>
      s.(connectedDevice := Some(device), isConnected := true)
    case ServicesDiscovered =>
      s.(dataReceived := s.dataReceived + [false])
    case ConnectFailed =>
      StartScan(s.(isConnected := false))
    case MonitorValue(k, v) =>
      HandleNewValue(s.(dataReceived := MarkReceived(s.dataReceived, k)), v)
    case MonitorError(_) =>
      s
    case NoDataTimerFired(k) =>
      if k < |s.dataReceived| && !s.dataReceived[k] then AbandonSilentDevice(s) else s
  }

  /** Folds a sequence of callbacks, delivered one at a time in order. */
  function Run(s: Screen, events: seq<Event>): (r: Screen)
    ensures s.data <= r.data
    ensures s.devices <= r.devices
    ensures WellFormed(s.devices) ==> WellFormed(r.devices)
    ensures FlagsGrow(s.dataReceived, r.dataReceived)
    decreases |events|
  {
    if events == [] then s else Run(Step(s, events[0]), events[1..])
  }

  /** At first render nothing is listed, scanning has not started, no device
      is connected, no value has arrived and no session is open; the list
      is trivially well formed, so every reachable list is (see `Run`). */
  lemma InitialScreen()
    ensures WellFormed(Initial.devices) && |Initial.devices| == 0
    ensures !Initial.scanning && !Initial.isConnected && Initial.connectedDevice == None
    ensures |Initial.data| == 0 && Initial.sensorValue == None
    ensures |Initial.dataReceived| == 0
  {
  }

  // Properties of single callbacks.

  /** On Android a scan starts only when every permission was granted; a
      refusal leaves the screen untouched. Other platforms always scan. */
  lemma PermissionGate(s: Screen, outcome: PermissionOutcome)
    ensures PermitsScan(outcome) ==> Step(s, PermissionsResolved(outcome)) == StartScan(s)
    ensures !PermitsScan(outcome) ==> Step(s, PermissionsResolved(outcome)) == s
    ensures PermitsScan(OtherPlatform)
    ensures outcome.AndroidResult? ==>
      (PermitsScan(outcome) <==> forall i :: 0 <= i < |outcome.statuses| ==> outcome.statuses[i] == Granted)
  {
  }

  /** A scan error stops the spinner and lists nothing new. */
  lemma ScanFailedStopsScanning(s: Screen)
    ensures !Step(s, ScanFailed).scanning
    ensures Step(s, ScanFailed).devices == s.devices
    ensures Step(s, ScanFailed).(scanning := s.scanning) == s
  {
  }

  /** A report that fails the name/id filter changes nothing; one that
      passes lists its id, appended at the end if it is new. */
  lemma DeviceReportedMerges(s: Screen, device: Option<Peripheral>)
    ensures !Discoverable(device) ==> Step(s, DeviceReported(device)) == s
    ensures Discoverable(device) && device.value.id !in Ids(s.devices) ==>
      Step(s, DeviceReported(device)).devices == s.devices + [device.value]
    ensures Discoverable(device) && device.value.id in Ids(s.devices) ==>
      Step(s, DeviceReported(device)) == s
  {
    if Discoverable(device) && device.value.id !in Ids(s.devices) {
      var r := Step(s, DeviceReported(device)).devices;
      assert r[..|s.devices|] == s.devices;
    }
  }

  /** Delivering the same report twice is the same as delivering it once. */
  lemma DeviceReportedIdempotent(s: Screen, device: Option<Peripheral>)
    ensures Step(Step(s, DeviceReported(device)), DeviceReported(device))
         == Step(s, DeviceReported(device))
  {
    if Discoverable(device) { MergeIdempotent(s.devices, device.value); }
  }

  /** Every place that starts a scan (the permission gate on Android and on
      other platforms, a failed connection, a silent session) turns the
      spinner on and does not clear the list. */
  lemma ScanRestartKeepsDevices(s: Screen, statuses: seq<PermissionStatus>, k: nat)
    ensures EveryGranted(statuses) ==>
      Step(s, PermissionsResolved(AndroidResult(statuses))).scanning
      && Step(s, PermissionsResolved(AndroidResult(statuses))).devices == s.devices
    ensures Step(s, PermissionsResolved(OtherPlatform)).scanning
    ensures Step(s, PermissionsResolved(OtherPlatform)).devices == s.devices
    ensures Step(s, ConnectFailed).scanning && Step(s, ConnectFailed).devices == s.devices
    ensures k < |s.dataReceived| && !s.dataReceived[k] ==>
      Step(s, NoDataTimerFired(k)).scanning && Step(s, NoDataTimerFired(k)).devices == s.devices
  {
  }

  /** The 15 s scan timer only turns the spinner off. */
  lemma ScanTimerStopsScanning(s: Screen)
    ensures Step(s, ScanTimerFired) == s.(scanning := false)
  {
  }

  /** Selecting a device stops the library scan but sets no screen state:
      even the spinner flag stays as it was. */
  lemma DeviceSelectedKeepsState(s: Screen, p: Peripheral)
    ensures Step(s, DeviceSelected(p)) == s
  {
  }

  /** A successful connect records the device and marks the screen
      connected before any service discovery or monitoring starts. */
  lemma ConnectedBeforeDiscovery(s: Screen, d: Peripheral)
    ensures Step(s, Connected(d)).connectedDevice == Some(d)
    ensures Step(s, Connected(d)).isConnected
    ensures Step(s, Connected(d)).dataReceived == s.dataReceived
    ensures Step(s, Connected(d)).data == s.data
    ensures Step(s, Connected(d)).(connectedDevice := s.connectedDevice, isConnected := s.isConnected) == s
  {
  }

  /** A failed connect (or failed service discovery) clears `isConnected`
      and scans again; it keeps `connectedDevice`, the list and the series. */
  lemma ConnectFailedRestartsScan(s: Screen)
    ensures !Step(s, ConnectFailed).isConnected
    ensures Step(s, ConnectFailed).scanning
    ensures Step(s, ConnectFailed).connectedDevice == s.connectedDevice
    ensures Step(s, ConnectFailed).data == s.data
    ensures Step(s, ConnectFailed).devices == s.devices
  {
  }

  /** Each `discoverAndMonitor` call opens a new session whose flag starts
      false; the series is not reset. */
  lemma ServicesDiscoveredOpensSession(s: Screen)
    ensures Step(s, ServicesDiscovered).dataReceived == s.dataReceived + [false]
    ensures Step(s, ServicesDiscovered).data == s.data
    ensures Step(s, ServicesDiscovered).(dataReceived := s.dataReceived) == s
  {
  }

  /** A monitor value grows the series by exactly that value, shows it, and
      marks its session as having received data. */
  lemma MonitorValueAppends(s: Screen, k: nat, v: Sample)
    ensures Step(s, MonitorValue(k, v)).data == s.data + [v]
    ensures Step(s, MonitorValue(k, v)).sensorValue == Some(v)
    ensures k < |s.dataReceived| ==> Step(s, MonitorValue(k, v)).dataReceived[k]
    ensures Step(s, MonitorValue(k, v)).(data := s.data, sensorValue := s.sensorValue,
                                        dataReceived := s.dataReceived) == s
  {
    var r := Step(s, MonitorValue(k, v));
    assert r.data == r.data[..|s.data|] + [r.data[|s.data|]];
  }

  /** A monitor error is logged and otherwise ignored: it does not count as
      data received. */
  lemma MonitorErrorIgnored(s: Screen, k: nat)
    ensures Step(s, MonitorError(k)) == s
  {
  }

  /** The no-data timer of session k acts exactly when that session has seen
      no value; it then disconnects the screen and scans again. */
  lemma NoDataTimerFiresOnlyWhenSilent(s: Screen, k: nat)
    requires k < |s.dataReceived|
    ensures !s.dataReceived[k] ==> Step(s, NoDataTimerFired(k)) == AbandonSilentDevice(s)
    ensures s.dataReceived[k] ==> Step(s, NoDataTimerFired(k)) == s
  {
  }
}
