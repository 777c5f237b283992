# blehr heart-rate session model

A Dafny model of the session logic of blehr, an iOS app that finds a Bluetooth Low
Energy heart-rate sensor, connects to it, subscribes to its measurements and
shows the decoded beats per minute. The model covers three parts:

- **The measurement decoder.** `HeartRateParser.Parse` decodes the Heart Rate
  Measurement characteristic (0x2A37) of the Bluetooth Heart Rate Service v1.0.
  Bit 0 of the Flags byte (section 3.1.1.1) selects the format of the value
  field (section 3.1.1.2): a UINT8 at byte 1, or a little-endian UINT16 at
  bytes 1-2. The 16-bit value is computed with the same mask, `|` and `<<` as
  the source, on `bv16`. It is then proved equal to `lo + 256 * hi`.
- **`SensorService`.** This is the later revision. It is a class whose
  delegate callbacks are methods, with three fields:
  - the current peripheral;
  - a log of issued radio commands;
  - one ordered log of everything sent into its four subjects (availability,
    sensor name, heart rate, pulse). One log keeps the order of sends across
    subjects.
- **`HeartRateViewModel`.** This is the earlier all-in-one revision. Its
  published fields are class fields (`heartRate`, `heartbeatPulse`,
  `subtitle`, `bluetoothAvailable`), next to the current peripheral and the
  command log.

The radio stack is abstracted:
- Peripherals, services and characteristics are plain records (`Radio`).
- An advertisement is a dictionary from keys to values.
- Every radio operation is a `Command` appended to the log.

Both classes keep the invariant `Valid()`:
- the current peripheral is the target of the most recent `Connect` in the
  log;
- every `Connect` comes right after a `StopScan`.

The view model's `Valid()` also ties `heartbeatPulse` to a ghost count of
handled notifications. `ViewModel.PulseAfterParity` turns that into "set
exactly when the count is odd".

Modules: `Radio` (radio.dfy), `Gatt` (gatt.dfy: first-match selection, the
connectable guard, command-log facts), `HeartRateParser`
(heart_rate_parser.dfy), `SensorServices` (sensor_service.dfy), `ViewModel`
(view_model.dfy).

blehr connects to the first connectable advertiser it hears. It keeps no
list of discovered sensors. Sources/SensorState.swift declares a
`SensorState` enum (disabled, scanning, connected), but neither
SensorService nor HeartRateViewModel stores or updates one.

## Model

| member | source | states |
|---|---|---|
| HeartRateParser.Parse | Sources/HeartRateParser.swift:14-22 | needs 2 bytes, 3 when flag bit 0 is set; bit 0 clear gives byte 1 (below 256); bit 0 set gives byte 1 + 256 * byte 2, little-endian (below 65536) |
| HeartRateParser.ParseReadsOnlyFormatAndValue | Sources/HeartRateParser.swift:16-20 | payloads that agree on flag bit 0 and on the value field decode alike, whatever their other flag bits and trailing bytes |
| HeartRateParser.ParseIgnoresTrailingBytes | Sources/HeartRateParser.swift:15-20 | appending any bytes to a decodable payload keeps it decodable and does not change the result |
| HeartRateParser.Encode | Sources/HeartRateParser.swift:17-20 | round trip: for a 16-bit v, [0x00, v] (v < 256) and [0x01, v % 256, v / 256] are decodable and parse back to v |
| HeartRateParser.EncodeParse | Sources/HeartRateParser.swift:17-20 | other direction: a payload with flags 0x00 or 0x01 and no trailing bytes is exactly the encoding of the 16-bit value it parses to |
| HeartRateParser.TestVectors | Tests/HeartRateParserTests.swift:13-25 | [0,0]->0, [0,5]->5, [0,255]->255, [1,0,1]->256, [1,255,3]->1023 |
| Gatt.FirstIndex | Sources/SensorService.swift:121 | first(where:): a found index is the first element that matches; no index means no element matches |
| Gatt.IsConnectable | Sources/SensorService.swift:104-106 | false when the IsConnectable entry is missing or not a Boolean; otherwise the entry's Boolean value |
| Gatt.CharacteristicDiscovery | Sources/SensorService.swift:119-123 | requests characteristic 0x2A37 on the first service whose UUID is 0x180D; no request when the list is nil or holds no such service (both directions) |
| Gatt.NotifyRequest | Sources/SensorService.swift:125-129 | enables notify on the first characteristic whose UUID is 0x2A37; no request when the list is nil or holds no such characteristic (both directions) |
| Gatt.LastConnectTargetIsLast | Sources/SensorService.swift:107-110 | the peripheral kept as current is the target of a Connect entry with no later Connect; there is none exactly when the log holds no Connect |
| Gatt.LastConnectTargetAppend | Sources/SensorService.swift:107-110 | the last Connect target of a concatenated log comes from the appended part if it has one, else from the earlier part |
| Gatt.ConnectsFollowStopScanAppend | Sources/SensorService.swift:108-109 | "every Connect directly follows a StopScan" survives concatenating two logs that both have it |
| Gatt.AppendWithoutConnect | Sources/SensorService.swift:64-69 | appending commands with no Connect keeps the last Connect target and the StopScan-before-Connect order; the lemma behind every callback's Valid() |
| SensorServices.SensorName | Sources/SensorService.swift:29-37 | nil only when the peripheral is cleared; the peripheral's name when it has one; "???" when it has none |
| SensorServices.SensorService.constructor | Sources/SensorService.swift:29-60 | no current peripheral, no command issued, nothing sent |
| SensorServices.SensorService.ParseHeartRate | Sources/SensorService.swift:73-81 | agrees with HeartRateParser.Parse on every payload that meets its precondition |
| SensorServices.SensorService.SetHeartRatePeripheral | Sources/SensorService.swift:29-37 | assigning the peripheral (only ever the last Connect target) sends exactly one name emission, SensorName of the new value, issues no command and keeps Valid() |
| SensorServices.SensorService.StartScanning | Sources/SensorService.swift:64-69 | sends nil heart rate, then nil name; issues StopScan, then a scan filtered to 0x180D; keeps the peripheral |
| SensorServices.SensorService.CentralManagerDidUpdateState | Sources/SensorService.swift:85-88 | sends exactly one availability value, true iff the state is poweredOn; nothing else changes |
| SensorServices.SensorService.DidDisconnectPeripheral | Sources/SensorService.swift:90-96 | exactly the effects of StartScanning |
| SensorServices.SensorService.DidDiscover | Sources/SensorService.swift:98-111 | not connectable (IsConnectable entry missing, not a Boolean or false): no change at all; connectable: StopScan then Connect(p), peripheral := p, one name emission with the "???" fallback |
| SensorServices.SensorService.DidConnect | Sources/SensorService.swift:113-115 | issues one unfiltered service discovery on the peripheral; nothing else changes |
| SensorServices.SensorService.DidDiscoverServices | Sources/SensorService.swift:119-123 | appends exactly the command of Gatt.CharacteristicDiscovery (none when nothing matches); sends nothing |
| SensorServices.SensorService.DidDiscoverCharacteristicsFor | Sources/SensorService.swift:125-129 | appends exactly the command of Gatt.NotifyRequest (none when nothing matches); sends nothing |
| SensorServices.SensorService.DidUpdateValueFor | Sources/SensorService.swift:131-136 | nil value: nothing sent; otherwise one pulse, then one heart rate equal to Parse(data); no command |
| ViewModel.PulseAfterParity | Sources/ViewModel.swift:109-116 | after n toggles from false the pulse flag is set iff n is odd |
| ViewModel.HeartRateViewModel.constructor | Sources/ViewModel.swift:14-27 | heartRate nil, heartbeatPulse false, subtitle nil, bluetoothAvailable true, no peripheral, no command |
| ViewModel.HeartRateViewModel.ParseHeartRate | Sources/ViewModel.swift:41-49 | agrees with HeartRateParser.Parse on every payload that meets its precondition |
| ViewModel.HeartRateViewModel.StartScanning | Sources/ViewModel.swift:35-39 | heartRate := nil, subtitle := "Searching for a sensor...", one scan filtered to 0x180D with no StopScan before it; other fields kept |
| ViewModel.HeartRateViewModel.HandleAvailabilityChange | Sources/ViewModel.swift:51-56 | bluetoothAvailable := b; the StartScanning effects iff b; heartRate, subtitle and the log unchanged when b is false |
| ViewModel.HeartRateViewModel.CentralManagerDidUpdateState | Sources/ViewModel.swift:60-65 | HandleAvailabilityChange(state == poweredOn) |
| ViewModel.HeartRateViewModel.DidDisconnectPeripheral | Sources/ViewModel.swift:67-71 | exactly the effects of StartScanning |
| ViewModel.HeartRateViewModel.DidDiscover | Sources/ViewModel.swift:73-89 | not connectable: no change; connectable: StopScan then Connect(p), peripheral := p, subtitle := p's name, which may be nil (no "???" fallback) |
| ViewModel.HeartRateViewModel.DidConnect | Sources/ViewModel.swift:91-93 | issues one unfiltered service discovery on the peripheral; nothing else changes |
| ViewModel.HeartRateViewModel.DidDiscoverServices | Sources/ViewModel.swift:97-101 | appends exactly the command of Gatt.CharacteristicDiscovery; published fields unchanged |
| ViewModel.HeartRateViewModel.DidDiscoverCharacteristicsFor | Sources/ViewModel.swift:103-107 | appends exactly the command of Gatt.NotifyRequest; published fields unchanged |
| ViewModel.HeartRateViewModel.DidUpdateValueFor | Sources/ViewModel.swift:109-116 | nil value: nothing changes; otherwise heartRate := Parse(data) and heartbeatPulse flips; always heartbeatPulse iff the number of handled notifications is odd |

## Left out

- CoreBluetooth is not modelled. The central manager, peripherals, services,
  characteristics and UUIDs are records. Radio operations are log entries.
  Radio behaviour (which callbacks arrive, and when) is not modelled.
- `peripheral.delegate = self` in both didDiscover handlers only registers a
  callback target. The model delivers callbacks by direct method calls, so it
  has no counterpart.
- Combine subjects, `eraseToAnyPublisher` and the publishers built on them are
  not modelled. The subjects of `SensorService` become one append-only emission
  log. The `@Published` fields of the view model are plain fields; their change
  notifications are not modelled.
- `Task { @MainActor in ... }` hops and `nonisolated` annotations are not
  modelled. Each hop is applied at once and in order, inside the callback that
  schedules it.
- The `error` arguments of the callbacks and the RSSI are never read by the
  source. The RSSI is accepted and ignored; the error arguments are dropped.
- The central-manager argument of the callbacks is represented by its `state`
  in CentralManagerDidUpdateState. Otherwise it is the single manager whose
  commands (`stopScan`, `connect`) are logged.
- SensorServices.SensorService.StartScanning: sends and commands go into two
  separate logs, so the model does not state that the nil sends come before
  stopScan and the scan.
- SensorServices.SensorService.DidDisconnectPeripheral: it has the same effects
  as StartScanning, and the same order between sends and commands is not
  stated.
- SensorServices.SensorService.DidDiscover: the model does not state that
  stopScan and connect are issued before the name send of the didSet.
- `didUpdateValueFor` does not check which characteristic the value came from,
  and neither does the model.
- openSettings opens a UIKit deep link. It is I/O and not modelled.
- The SwiftUI views and app entry points are not modelled.
- Sources/HeartRateViewModel.swift is not modelled: it only wires Combine
  subscriptions. Its `handleAvailabilityChange` repeats the one in
  Sources/ViewModel.swift, which is modelled.
- Sources/SensorState.swift is not modelled: it holds declarations with no
  operations.
- The parser's precondition stands for the trap on a short payload. There is
  no error result, because the source has none.
