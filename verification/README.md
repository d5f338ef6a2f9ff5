# Remote-monitoring device simulator: identity leases and engine tick

This project models the core of the remote-monitoring IoT device simulator in
Dafny. Each simulator process claims an integer device id in a shared DynamoDB
table, `iot-rm-devices-table`, and keeps a lease on that id. Every loop interval
it then publishes a synthetic engine reading and renews the lease.

- `device.dfy` holds module `DeviceLease`. The table is a `map<int, int>` from
  device id to `ttlDevice`, the lease expiry in whole seconds. Its two
  conditional writes are pure functions on that map:
  - `SaveDeviceId` is the put conditioned on
    `attribute_not_exists(deviceId) OR ttlDevice <= :ttl`.
  - `RefreshDevice` is the update conditioned on `ttlDevice = :t`.

  `GetDevice` is the probe loop of `getDevice`. It is a method whose loop
  invariant states that every id it has passed was taken or failed. It
  terminates when only finitely many probes fail: each passed id removes one
  element from the finite set of ids at or above the candidate that hold a
  record or a failing reply. A table that fails every put keeps the source's
  loop probing forever; see "## Findings".
- `engine.dfy` holds module `Engine`, one call of `Engine.doWork`. It covers the
  readings derived from integer draws, the payload, the empty-endpoint guard of
  `_publishMessage`, and the rule that the device changes only on a successful
  renewal.
- `simulation.dfy` holds module `Simulation`, scenarios spanning several calls:
  - two processes acquiring at the same instant;
  - `n` processes starting one after another on an empty table;
  - start-up, abstracted to "acquire, then tick", with the configured 30-second
    interval;
  - any ordered sequence of ticks.

The clock is an input `nowMs` in milliseconds, as `Date.now()` returns it.
`Math.round(nowMs / 1000)` is modelled exactly as `(nowMs + 500) / 1000`:
JavaScript rounds halves upwards, and Dafny's division by a positive number
floors.

How the table answers a write is an input of type `Reply`:
- `Answered`: the table evaluated the condition and replied. The write took
  effect iff the condition held.
- `Failed`: the call failed before the table wrote anything, for example
  missing credentials or a missing table.
- `FailedAfterWrite`: the table wrote, but the caller saw an error, for example
  a timeout after the write.

Both `_saveDeviceId` and `refreshDevice` treat every error alike. A
`FailedAfterWrite` put therefore leaves an orphaned record, a live lease
nobody renews. A `FailedAfterWrite` renewal leaves the table ahead of the
device, so the engine loses its own lease. The probe loop takes its replies
from a finite map; ids without an entry are answered.

`Math.random()` scaled and floored is an integer draw `r` with `0 <= r < n`.
The transport's reply is a boolean `transportOk`.

## Model

| member | source | states |
|---|---|---|
| DeviceLease.NowSeconds | deployment/ecr/remote-monitoring-of-iot-devices/lib/device/index.js:29 | the seconds clock is the millisecond clock rounded to the nearest second, halves upwards: `nowMs` lies in `[1000·s − 500, 1000·s + 500)` |
| DeviceLease.NowSecondsMonotone | deployment/ecr/remote-monitoring-of-iot-devices/lib/device/index.js:29 | the rounded clock never runs backwards |
| DeviceLease.LeaseSeconds | deployment/ecr/remote-monitoring-of-iot-devices/lib/device/index.js:62-63 | the lease length in seconds is exactly four loop intervals: `1000·s == 4·loopInterval` |
| DeviceLease.LeaseExpiry | deployment/ecr/remote-monitoring-of-iot-devices/lib/device/index.js:106-107 | the written expiry is four loop intervals after the rounded clock, so it lies in the future for a positive interval |
| DeviceLease.SaveDeviceId | deployment/ecr/remote-monitoring-of-iot-devices/lib/device/index.js:27-54 | the put reports success iff the table answered and the id is absent or its stored ttl is ≤ now in seconds; the record is written iff the condition held and the call did not fail before the write, so a lost reply still writes; no other key changes |
| DeviceLease.PutFence | deployment/ecr/remote-monitoring-of-iot-devices/lib/device/index.js:37 | after a successful put of expiry `ttl`, a later put for the same id succeeds iff `ttl` ≤ the later time in seconds (no reclaim before expiry, reclaim after) |
| DeviceLease.GetDevice | deployment/ecr/remote-monitoring-of-iot-devices/lib/device/index.js:56-81 | probing from 1000 returns the least id ≥ 1000 that is absent or expired and whose put was answered; every id in `[1000, result)` is live or its put failed; the returned ttl is four loop intervals after now; the table records the returned lease, every passed id whose reply was lost after a claimable write holds an orphaned copy of it, and every other id is unchanged; with no lost replies the table is the old one plus exactly that record |
| DeviceLease.GetDeviceReportingErrors | deployment/ecr/remote-monitoring-of-iot-devices/lib/device/index.js:45-76 | the probe as evidently intended: it stops at the first put the table did not answer and reports that id, leaving every other id unchanged; otherwise it acquires the least claimable id ≥ 1000 as `GetDevice` does and writes only that record; every id it passes holds a live lease |
| DeviceLease.ProbeThroughErrors | deployment/ecr/remote-monitoring-of-iot-devices/lib/device/index.js:50-53 | the probe as written moves past `n` failing puts for any `n`: with ids 1000 … 1000+n−1 failing it returns id 1000+n, so a table that fails every put is probed without end |
| DeviceLease.ProbeStopsAtFirstError | deployment/ecr/remote-monitoring-of-iot-devices/lib/device/index.js:50-53 | with the first put failing, the corrected probe reports `Unavailable(1000)` whatever the number of failing ids |
| DeviceLease.FailingProbes | deployment/ecr/remote-monitoring-of-iot-devices/lib/device/index.js:50-53 | the replies of a table that fails the first `n` probes: its keys are exactly ids 1000 … 1000+n−1, each failing before the write |
| DeviceLease.RefreshDevice | deployment/ecr/remote-monitoring-of-iot-devices/lib/device/index.js:83-113 | renewal succeeds iff the table answered and the stored ttl for the id equals the device's `ttlDevice`; on success the device keeps its id and takes the new expiry (four intervals after now), which the table records; a table error is reported apart from a failed condition; the update is written iff the condition held and the call did not fail before the write; no other key changes |
| DeviceLease.RefreshChain | deployment/ecr/remote-monitoring-of-iot-devices/lib/device/index.js:106-112 | renewing again with the device a renewal returned always succeeds; the expiry moves forward by exactly the elapsed rounded seconds, so it never decreases |
| DeviceLease.StaleRefreshFails | deployment/ecr/remote-monitoring-of-iot-devices/lib/device/index.js:90-98 | once another process has reclaimed the id with a different expiry, renewal fails with a failed condition, not a table error |
| DeviceLease.RefreshedLeaseIsFenced | deployment/ecr/remote-monitoring-of-iot-devices/lib/device/index.js:107-110 | after a renewal, the id can be claimed by a put iff the new expiry has passed |
| DeviceLease.UnseenRenewalLosesLease | deployment/ecr/remote-monitoring-of-iot-devices/lib/device/index.js:103-112 | a renewal the table wrote but whose reply was lost reports a table error while the table no longer holds the caller's expiry; every later renewal with that device fails its condition |
| Engine.Pressure | deployment/ecr/remote-monitoring-of-iot-devices/lib/engine/index.js:61 | for a draw in `[0, 100)` the pressure lies in `[0, 100)` |
| Engine.OilLevelAsWritten | deployment/ecr/remote-monitoring-of-iot-devices/lib/engine/index.js:62 | the oil level as computed lies in `[100, 199)`, above its declared range |
| Engine.OilLevelAsWrittenOutOfRange | deployment/ecr/remote-monitoring-of-iot-devices/lib/engine/index.js:53-62 | no draw yields an oil level in the declared `[1, 100)`; the draw 0 yields 100 |
| Engine.OilLevel | deployment/ecr/remote-monitoring-of-iot-devices/lib/engine/index.js:53-55 | the corrected oil level lies in its declared range `[1, 100)` |
| Engine.OilLevelCoversDeclaredRange | deployment/ecr/remote-monitoring-of-iot-devices/lib/engine/index.js:53-55 | the corrected oil level maps draws one-to-one onto the whole declared range `[1, 100)` |
| Engine.Temperature | deployment/ecr/remote-monitoring-of-iot-devices/lib/engine/index.js:63 | for a draw in `[0, 75)` the temperature lies in `[175, 250)` |
| Engine.ReadingsCoverRanges | deployment/ecr/remote-monitoring-of-iot-devices/lib/engine/index.js:49-63 | each reading maps draws one-to-one onto a range of consecutive integers, so uniform draws give uniform readings: pressure onto `[0, 100)`, the oil level as computed onto `[100, 199)`, temperature onto `[175, 250)` |
| Engine.MakePayload | deployment/ecr/remote-monitoring-of-iot-devices/lib/engine/index.js:65-72 | the payload carries `deviceType` "RM_Accelerator" and the current device's id; pressure and temperature lie in their declared ranges and the oil level in `[100, 199)`, so the payload is never inside the declared ranges |
| Engine.MakePayloadCorrected | deployment/ecr/remote-monitoring-of-iot-devices/lib/engine/index.js:53-72 | with the corrected oil level every reading lies in its declared range, and the payload carries the device's id |
| Engine.CorrectedPayloadShiftsOilLevel | deployment/ecr/remote-monitoring-of-iot-devices/lib/engine/index.js:54-62 | the corrected payload differs from the one sent only in its oil level, which is 99 lower |
| Engine.PublishMessage | deployment/ecr/remote-monitoring-of-iot-devices/lib/engine/index.js:95-121 | with an empty endpoint the publish rejects without calling the transport; otherwise it makes exactly one transport call with the topic and payload; it resolves iff the endpoint is set and the transport acknowledges |
| Engine.Tick | deployment/ecr/remote-monitoring-of-iot-devices/lib/engine/index.js:46-93 | a tick makes at most one transport call, exactly one iff the endpoint is set; the message goes to "remote_monitoring/" with a payload of the shape sent (oil level in `[100, 199)`) for the pre-tick device; the publish is delivered iff the endpoint is set and the transport acknowledges; the renewal succeeds iff the table answered and the engine owns its lease, and otherwise reports a table error iff the table did not answer; the device changes only on success, to the renewed one; the table changes only at the device's id; the device id never changes |
| Engine.TickKeepsLease | deployment/ecr/remote-monitoring-of-iot-devices/lib/engine/index.js:82-88 | if the engine owns its lease and the table answers, the tick's renewal succeeds, the engine still owns the lease, and the expiry is four intervals after now |
| Engine.LostLeaseStaysLost | deployment/ecr/remote-monitoring-of-iot-devices/lib/engine/index.js:82-92 | once the lease is lost, a tick leaves the engine and the table unchanged: the engine keeps publishing under the unowned id and never reacquires |
| Engine.UnseenRenewalLosesTick | deployment/ecr/remote-monitoring-of-iot-devices/lib/engine/index.js:82-92 | a tick whose renewal the table wrote but whose reply was lost keeps the old device, and the engine no longer owns its lease |
| Simulation.AcquireTwice | deployment/ecr/remote-monitoring-of-iot-devices/lib/device/index.js:56-76 | a second acquisition at the same instant takes a different id than the first; if every id whose put failed unwritten for the first is not answered for the second, it takes a larger id; both records are in the final table |
| Simulation.AcquireSequentially | deployment/ecr/remote-monitoring-of-iot-devices/lib/device/index.js:56-81 | `n` processes started one after another on an answering empty table take exactly ids 1000 … 1000+n−1 in order; the table holds exactly those ids with their leases |
| Simulation.StartAndTick | deployment/ecr/remote-monitoring-of-iot-devices/index.js:25-40 | start-up abstracted to "acquire, then tick": with a 30 s interval and an empty table, acquisition takes id 1000 with a 120 s lease; a tick with an acknowledging transport and an answering table publishes one payload of the shape sent for device 1000; the stored expiry becomes 120 s after the tick |
| Simulation.RunTicks | deployment/ecr/remote-monitoring-of-iot-devices/lib/engine/index.js:36-44 | across any ordered sequence of ticks, the engine keeps the device id and configuration it started with; it makes at most one transport call per tick, and every message goes to "remote_monitoring/" with a payload of the shape sent for that id |
| Simulation.RunKeepsLease | deployment/ecr/remote-monitoring-of-iot-devices/lib/engine/index.js:82-88 | while the table answers every renewal, the engine owns its lease after any number of ticks; after the last tick the expiry is four intervals after that tick |
| Simulation.RunAfterLossIsStuck | deployment/ecr/remote-monitoring-of-iot-devices/lib/engine/index.js:82-92 | once the lease is lost and no one else writes the table, any number of ticks leaves the engine and the table unchanged; it never reacquires |

## Left out

- AWS SDK calls are not modelled: DynamoDB `DocumentClient`, `IotData.publish` and `Iot.describeEndpoint` are foreign I/O. The table is the map, its replies are `Reply` inputs, and the transport is the `transportOk` oracle.
- Timing is abstracted to an ordered sequence of ticks (`Simulation.RunTicks`). The `setInterval` period and the wall-clock gaps between ticks are not modelled, beyond each tick's own `nowMs`.
- The concurrent dispatch of publish and renewal within `doWork` is not modelled. A tick is one function, and the two actions touch disjoint state, so their order does not matter.
- Interleavings between processes are modelled only as one call after another. Each conditional write is atomic in the table, so the lemmas are about such sequential compositions.
- Start-up in `index.js` is abstracted to "acquire, then tick" (`Simulation.StartAndTick`). `lib/config/index.js`, endpoint discovery, the logger and `JSON.stringify` are not modelled. The payload is a record before serialisation. The `qos: 0` publish parameter is not represented.
- DeviceLease.LeaseSeconds: requires the loop interval to be a whole number of seconds. The source divides floats, so other intervals give fractional expiries. The configured interval is 30000 ms.
- DeviceLease.LeaseExpiry: same restriction to whole-second intervals.
- DeviceLease.GetDevice: same whole-second restriction. It also uses one clock reading for the whole probe loop, while the source reads `Date.now()` twice per probe (lines 29 and 63). Its replies are a finite map, so only finitely many probes fail and the loop ends; a table that fails without end makes the source probe forever, which the model shows only for every finite prefix (`DeviceLease.ProbeThroughErrors`).
- DeviceLease.RefreshDevice: same whole-second restriction.
- `_publishMessage` rejects with an undefined variable `err` (line 107). In JavaScript that raises a ReferenceError inside the promise executor, which still rejects the promise. The model records the rejection as `InvalidEndpoint` without the error object.
- DynamoDB's own TTL expiry may delete records. The model leaves this out: an expired record and an absent one are equally claimable.

## Findings

| source | as written | input that shows it | evidently intended | confidence | as-written member | corrected member |
|---|---|---|---|---|---|---|
| deployment/ecr/remote-monitoring-of-iot-devices/lib/engine/index.js:62 | the oil level is `floor(random·(100 − 1)) + oilLeverUpper`, so it lies in `[100, 199)` | draw 0 gives oil level 100, outside `[1, 100)` | add the lower bound, `+ oilLevelLower`, for a level in `[1, 100)` like the other two readings | high (not executed) | Engine.OilLevelAsWritten, Engine.OilLevelAsWrittenOutOfRange, Engine.MakePayload | Engine.OilLevel, Engine.MakePayloadCorrected |
| deployment/ecr/remote-monitoring-of-iot-devices/lib/device/index.js:50-53 | `_saveDeviceId` returns `false` for every error, and the probe loop then moves on to the next id | a table that fails every put (no table, no credentials): with ids 1000 … 1000+n−1 failing the probe reaches 1000+n, for every `n`, so it never stops | return `false` only for a failed condition and report any other error to the caller | medium (not executed) | DeviceLease.ProbeThroughErrors, DeviceLease.GetDevice | DeviceLease.GetDeviceReportingErrors, DeviceLease.ProbeStopsAtFirstError |

The engine, `Engine.Tick` and the `Simulation` scenarios send the payload as
written, `Engine.MakePayload`, with the oil level in `[100, 199)`.

Facts about the code that the model states:
- The lease expiry is in seconds: both writes compute
  `Math.round(Date.now() / 1000)` plus four loop intervals in seconds
  (`lib/device/index.js` lines 63 and 107).
- A renewal sets the expiry to four intervals after the renewal time, so the
  stored expiry grows by the time elapsed since the last write
  (`DeviceLease.RefreshChain`).
- After a failed renewal the engine logs the error, keeps its stale device and
  never acquires another id (`lib/engine/index.js` lines 89-92,
  `Engine.LostLeaseStaysLost`).
