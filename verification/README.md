# BLE home screen state machine

A Dafny model of the device screen of BlueWave (`screens/HomeScreen.js`). The
screen keeps six pieces of React state: `devices`, `connectedDevice`, `data`,
`sensorValue`, `isConnected` and `scanning`. It changes them from the
callbacks of the BLE library, the permission request and two timers. This
model turns those callbacks into an `Event` datatype. It folds the events
into an immutable `Screen` record with a pure reducer, `HomeScreen.Step`, and
folds whole event sequences with `HomeScreen.Run`.

Modules:

- `BleTypes` (`ble_types.dfy`): the peripheral record and JavaScript
  truthiness of its optional `id`/`name`. Also the decoded sample
  (`Int(n)`, `NaN`, or a signed infinity) and the Android permission statuses.
- `DeviceList` (`device_list.dfy`): the discovery filter
  (`device && device.name && device.id`). Also the dedup-by-id merge that
  the `setDevices` updater applies, and a fold of many scan reports.
- `HomeScreen` (`home_screen.dfy`): the screen state, the events, `Step`,
  `Run`, and one lemma per callback.
- `ScreenTraces` (`screen_traces.dfy`): properties of arbitrary event
  sequences. These cover the sample series, the device list reached from
  the first render, and the no-data check of each monitoring session.

Besides the six fields, `Screen` carries `dataReceived`: one flag per
`discoverAndMonitor` call. In the source each call has its own local
`dataReceived` variable. Its 5 s timer reads that variable and no other,
and no timer is ever cancelled. So a monitor callback and a no-data timer
each name the call (session) that installed them.

Behaviour worth noting:

- Starting a scan does not clear `devices`.
- A new connection does not reset `data`.
- A value `parseInt` cannot decode is stored as `NaN`, not dropped; an over-long digit prefix is stored as an infinity.
- Selecting a device stops the library scan but does not clear `scanning`.
- A failed connection keeps `connectedDevice`.
- The no-data timer clears `connectedDevice` but does not disconnect the
  peripheral, so later monitor values of that session still append to
  `data`.

## Model

| member | source | states |
|---|---|---|
| DeviceList.HasId | screens/HomeScreen.js:50 | the front-to-back `some` search is true exactly when some listed entry has the given id |
| DeviceList.Merge | screens/HomeScreen.js:49-55 | every earlier entry is kept in place; at most one entry is added, at the end, and it is the reported device; afterwards its id is listed; the list is unchanged exactly when the id was already present; a list without duplicate ids stays without them |
| DeviceList.Discover | screens/HomeScreen.js:48-56 | a report without a device, a truthy name or a truthy id leaves the list unchanged; an accepted one ends up listed; the list only grows and stays well formed (listable entries, unique ids) |
| DeviceList.MergeIdempotent | screens/HomeScreen.js:50-54 | delivering the same device twice gives the same list as delivering it once |
| DeviceList.MergeKeepsExistingEntry | screens/HomeScreen.js:50-54 | a device whose id is already listed is ignored even if its other fields differ: the earlier entry wins |
| DeviceList.MergeIds | screens/HomeScreen.js:49-55 | the ids after a merge are exactly the earlier ids plus the reported one |
| DeviceList.DiscoverAll | screens/HomeScreen.js:41-57 | folding any sequence of scan reports keeps the earlier list as a prefix and keeps the list well formed |
| DeviceList.DiscoverAllIds | screens/HomeScreen.js:48-56 | after any sequence of reports the listed ids are the earlier ids plus the id of every report that passes the filter, and nothing else |
| HomeScreen.EveryGranted | screens/HomeScreen.js:25 | the `every` check is true exactly when each reported permission status is GRANTED (vacuously true for no statuses) |
| HomeScreen.InitialScreen | screens/HomeScreen.js:9-14 | at first render nothing is listed, scanning has not started, nothing is connected, no value has arrived and no session is open; the empty list is well formed, the base case of the list invariant |
| HomeScreen.PermitsScan | screens/HomeScreen.js:18-32 | the gate permits a scan on any non-Android platform, and on Android exactly when every requested permission is GRANTED |
| HomeScreen.StartScan | screens/HomeScreen.js:38-39 | starting a scan turns `scanning` on and changes no other field, so the device list is not cleared |
| HomeScreen.HandleNewValue | screens/HomeScreen.js:125-128 | the series grows by exactly one element; earlier elements are unchanged; the new last element is the value; `sensorValue` becomes the value; nothing else changes |
| HomeScreen.MarkReceived | screens/HomeScreen.js:103 | a value sets its own session's flag and leaves every other session's flag as it was |
| HomeScreen.AbandonSilentDevice | screens/HomeScreen.js:116-120 | the no-data recovery leaves the screen disconnected, without a connected device and scanning, and keeps the list, the series and the displayed value |
| HomeScreen.Step | screens/HomeScreen.js:38-128 | no callback shortens or rewrites the series or the device list; a well-formed list stays well formed; no session flag goes back from true to false |
| HomeScreen.Run | screens/HomeScreen.js:38-128 | the same four invariants hold across any sequence of callbacks |
| HomeScreen.PermissionGate | screens/HomeScreen.js:18-32 | on Android a scan starts if and only if every requested permission is GRANTED, and a refusal leaves the screen unchanged; other platforms always start a scan |
| HomeScreen.ScanFailedStopsScanning | screens/HomeScreen.js:42-45 | a scan error turns `scanning` off, adds no device and changes nothing else |
| HomeScreen.DeviceReportedMerges | screens/HomeScreen.js:48-56 | a report failing the filter leaves the whole screen unchanged; a new id is appended at the end; a known id leaves the whole screen unchanged |
| HomeScreen.DeviceReportedIdempotent | screens/HomeScreen.js:49-55 | delivering the same scan report twice gives the same screen as delivering it once |
| HomeScreen.ScanRestartKeepsDevices | screens/HomeScreen.js:38-39 | each call of `startScan` (granted Android permissions at line 26, other platforms at line 31, a failed connect at line 85, a silent session at line 120) turns `scanning` on and keeps the device list |
| HomeScreen.ScanTimerStopsScanning | screens/HomeScreen.js:60-66 | the 15 s scan timer turns `scanning` off and changes nothing else |
| HomeScreen.DeviceSelectedKeepsState | screens/HomeScreen.js:69-71 | selecting a device changes no screen state; `scanning` keeps its value |
| HomeScreen.ConnectedBeforeDiscovery | screens/HomeScreen.js:72-76 | a successful connect records the device and sets `isConnected` before any session is opened, and changes no other field |
| HomeScreen.ConnectFailedRestartsScan | screens/HomeScreen.js:81-86 | a failed connect or service discovery clears `isConnected` and scans again; it keeps `connectedDevice`, the list and the series |
| HomeScreen.ServicesDiscoveredOpensSession | screens/HomeScreen.js:89-90 | each `discoverAndMonitor` call opens a new session whose flag starts false and changes no other field: the series is not reset and the connection fields and `scanning` are kept |
| HomeScreen.MonitorValueAppends | screens/HomeScreen.js:103-105 | a monitor value, whatever `parseInt` made of it, is appended to the series and displayed, and it sets its session's flag; the connection fields, `scanning` and the list are kept |
| HomeScreen.MonitorErrorIgnored | screens/HomeScreen.js:97-101 | a monitor error changes nothing; in particular it does not count as data received |
| HomeScreen.NoDataTimerFiresOnlyWhenSilent | screens/HomeScreen.js:115-122 | a session's no-data timer resets the connection and restarts scanning when that session has no data, and otherwise changes nothing |
| ScreenTraces.RunData | screens/HomeScreen.js:125-128 | after any callbacks the series is the earlier series followed by every monitored value in arrival order, across reconnections |
| ScreenTraces.RunSensorValue | screens/HomeScreen.js:126 | after any callbacks the displayed value is the last monitored value, or the earlier one if none arrived |
| ScreenTraces.StepSensorValue | screens/HomeScreen.js:126 | a single callback displays its value when it is a monitor value and leaves the displayed value alone otherwise |
| ScreenTraces.RunDevices | screens/HomeScreen.js:41-57 | after any callbacks the device list is the fold of the scan reports alone; no other callback touches it |
| ScreenTraces.StepDevices | screens/HomeScreen.js:48-56 | only a scan report changes the device list |
| ScreenTraces.StepConnection | screens/HomeScreen.js:38-128 | only a connect outcome or a no-data timer changes `isConnected`; only a successful connect or a no-data timer changes `connectedDevice`; only the permission result, a scan error, the scan timer, a failed connect or a no-data timer changes `scanning` |
| ScreenTraces.RunKeepsConnection | screens/HomeScreen.js:38-128 | any sequence of callbacks without a connect outcome or a no-data timer leaves `isConnected` and `connectedDevice` as they were |
| ScreenTraces.ConnectionSurvivesMonitoring | screens/HomeScreen.js:72-106 | after a successful connect, service discovery and any later non-connection callbacks, the device is still recorded and `isConnected` still holds |
| ScreenTraces.LateValueAfterReset | screens/HomeScreen.js:103-120 | a value arriving after its session's no-data timer gave up is appended and displayed, while the screen stays disconnected, without a connected device, and scanning |
| ScreenTraces.ReachableDevices | screens/HomeScreen.js:48-56 | from the first render, the list never holds two entries with the same id or one lacking a name or id, and its ids are exactly those of the accepted reports |
| ScreenTraces.StepData | screens/HomeScreen.js:125-128 | a single callback appends its value to the series when it is a monitor value and leaves the series alone otherwise |
| ScreenTraces.StepFlag | screens/HomeScreen.js:103 | a single callback sets a session's flag only when it is a value for that session |
| ScreenTraces.RunFlags | screens/HomeScreen.js:90-105 | a session's flag is set after any callbacks exactly when it was set before or a value of that session arrived; errors do not set it |
| ScreenTraces.SilentSessionTimesOut | screens/HomeScreen.js:89-122 | once a session is opened, its no-data timer disconnects and rescans if and only if none of the callbacks in between was a value for that session |

## Left out

- `screens/RegisterScreen.js`: a form whose only logic is a truthiness check that shows an alert and navigates. It holds no state worth modelling.
- BLE library calls (`startDeviceScan`, `stopDeviceScan`, `connect`, `discoverAllServicesAndCharacteristics`, `services`, `characteristics`, `monitor`): they are foreign and asynchronous. Only their outcomes appear, as events.
- Walking services and characteristics and picking the notifiable ones (lines 92-110), and the `services()` error handler (lines 111-113): they set no screen state. The handler only logs.
- `parseInt` decoding (line 104): which decoded value a raw characteristic value yields is not modelled; the decoded value (an integer, `NaN`, or an infinity for a digit prefix beyond the double range) is an opaque input.
- Real timers and callback scheduling: both `setTimeout`s are events that may arrive at any point. The model does not restrict which events can follow which. A monitor event naming a session that was never opened only appends its value, without setting a flag.
- The "No Devices Found" check of the scan timer (line 63): it only decides whether an alert is shown, and alerts are not modelled. It reads the `devices` captured when the calling closure was created, not the current list.
- Alerts, `console` logging, rendering, the chart, styles and `Dimensions`.
