/**
  One tick of the simulator engine: derive a reading from three random draws,
  build the telemetry payload for the current device, publish it, and renew the
  device lease, keeping the renewed device only when the renewal succeeds.

  `Math.floor(Math.random() * n)` is an integer draw `r` with `0 <= r < n`; the
  transport and the lease table are oracles given as inputs.
 */
module Engine {
  import opened DeviceLease

  const PressureLower := 0
  const PressureUpper := 100
  const OilLevelLower := 1
  const OilLevelUpper := 100
  const TemperatureLower := 175
  const TemperatureUpper := 250

  const DeviceType := "RM_Accelerator"
  const Topic := "remote_monitoring/"

  /** A floored draw over a range: `0 <= r < upper - lower`. */
  predicate IsDraw(r: int, lower: int, upper: int)
  {
    0 <= r < upper - lower
  }

  /** The three draws of one tick, one per reading. */
  datatype Draws = Draws(pressure: int, oilLevel: int, temperature: int)

  predicate ValidDraws(d: Draws)
  {
    && IsDraw(d.pressure, PressureLower, PressureUpper)
    && IsDraw(d.oilLevel, OilLevelLower, OilLevelUpper)
    && IsDraw(d.temperature, TemperatureLower, TemperatureUpper)
  }

  /** The engine pressure reading, in [0, 100). */
  function Pressure(r: int): (p: int)
    requires IsDraw(r, PressureLower, PressureUpper)
    ensures PressureLower <= p < PressureUpper
  {
    r + PressureLower
  }

  /** The oil level as the engine computes it: the draw is offset by the upper bound. */
  function OilLevelAsWritten(r: int): (o: int)
    requires IsDraw(r, OilLevelLower, OilLevelUpper)
    ensures OilLevelUpper <= o < 2 * OilLevelUpper - OilLevelLower
  {
    r + OilLevelUpper
  }

  /** The oil level offset by the lower bound, as its declared range [1, 100) intends. */
  function OilLevel(r: int): (o: int)
    requires IsDraw(r, OilLevelLower, OilLevelUpper)
    ensures OilLevelLower <= o < OilLevelUpper
  {
    r + OilLevelLower
  }

  /** The temperature reading, in [175, 250). */
  function Temperature(r: int): (t: int)
    requires IsDraw(r, TemperatureLower, TemperatureUpper)
    ensures TemperatureLower <= t < TemperatureUpper
  {
    r + TemperatureLower
  }

  /** No draw gives an oil level inside the declared range, e.g. the draw 0 gives 100. */
  lemma OilLevelAsWrittenOutOfRange(r: int)
    requires IsDraw(r, OilLevelLower, OilLevelUpper)
    ensures !(OilLevelLower <= OilLevelAsWritten(r) < OilLevelUpper)
    ensures OilLevelAsWritten(0) == 100
  {
  }

  /**
    Each reading is a bijection from its draws onto a range of consecutive
    integers, so a uniform draw gives a uniform reading: pressure onto [0, 100),
    the oil level as computed onto [100, 199), temperature onto [175, 250).
   */
  lemma ReadingsCoverRanges(p: int, o: int, t: int)
    requires PressureLower <= p < PressureUpper
    requires OilLevelUpper <= o < 2 * OilLevelUpper - OilLevelLower
    requires TemperatureLower <= t < TemperatureUpper
    ensures exists r :: IsDraw(r, PressureLower, PressureUpper) && Pressure(r) == p
    ensures exists r :: IsDraw(r, OilLevelLower, OilLevelUpper) && OilLevelAsWritten(r) == o
    ensures exists r :: IsDraw(r, TemperatureLower, TemperatureUpper) && Temperature(r) == t
    ensures forall r1, r2 ::
              (IsDraw(r1, PressureLower, PressureUpper) && IsDraw(r2, PressureLower, PressureUpper)
               && Pressure(r1) == Pressure(r2)) ==> r1 == r2
    ensures forall r1, r2 ::
              (IsDraw(r1, OilLevelLower, OilLevelUpper) && IsDraw(r2, OilLevelLower, OilLevelUpper)
               && OilLevelAsWritten(r1) == OilLevelAsWritten(r2)) ==> r1 == r2
    ensures forall r1, r2 ::
              (IsDraw(r1, TemperatureLower, TemperatureUpper) && IsDraw(r2, TemperatureLower, TemperatureUpper)
               && Temperature(r1) == Temperature(r2)) ==> r1 == r2
  {
    assert Pressure(p - PressureLower) == p;
    assert OilLevelAsWritten(o - OilLevelUpper) == o;
    assert Temperature(t - TemperatureLower) == t;
  }

  /** The corrected oil level maps draws one-to-one onto its whole declared range [1, 100). */
  lemma OilLevelCoversDeclaredRange(o: int)
    requires OilLevelLower <= o < OilLevelUpper
    ensures exists r :: IsDraw(r, OilLevelLower, OilLevelUpper) && OilLevel(r) == o
    ensures forall r1, r2 ::
              (IsDraw(r1, OilLevelLower, OilLevelUpper) && IsDraw(r2, OilLevelLower, OilLevelUpper)
               && OilLevel(r1) == OilLevel(r2)) ==> r1 == r2
  {
    assert OilLevel(o - OilLevelLower) == o;
  }

  /** The telemetry message body, before JSON serialisation. */
  datatype Payload = Payload(deviceType: string, deviceId: int, pressure: int, oilLevel: int, temperature: int)

  /** A payload of the declared shape: the device type and every reading inside its declared range. */
  predicate WellFormed(p: Payload)
  {
    && p.deviceType == DeviceType
    && PressureLower <= p.pressure < PressureUpper
    && OilLevelLower <= p.oilLevel < OilLevelUpper
    && TemperatureLower <= p.temperature < TemperatureUpper
  }

  /** The shape of the payloads the engine sends: as declared, except the oil level lies in [100, 199). */
  predicate WellFormedAsWritten(p: Payload)
  {
    && p.deviceType == DeviceType
    && PressureLower <= p.pressure < PressureUpper
    && OilLevelUpper <= p.oilLevel < 2 * OilLevelUpper - OilLevelLower
    && TemperatureLower <= p.temperature < TemperatureUpper
  }

  /** The payload the engine sends for the current device and this tick's draws. */
  function MakePayload(device: Device, d: Draws): (p: Payload)
    requires ValidDraws(d)
    ensures WellFormedAsWritten(p)
    ensures !WellFormed(p)
    ensures p.deviceId == device.deviceId
  {
    Payload(DeviceType, device.deviceId, Pressure(d.pressure), OilLevelAsWritten(d.oilLevel), Temperature(d.temperature))
  }

  /** The payload with the corrected oil level: every reading inside its declared range. */
  function MakePayloadCorrected(device: Device, d: Draws): (p: Payload)
    requires ValidDraws(d)
    ensures WellFormed(p)
    ensures p.deviceId == device.deviceId
  {
    Payload(DeviceType, device.deviceId, Pressure(d.pressure), OilLevel(d.oilLevel), Temperature(d.temperature))
  }

  /** The corrected payload differs from the one sent only in its oil level, which is 99 lower. */
  lemma CorrectedPayloadShiftsOilLevel(device: Device, d: Draws)
    requires ValidDraws(d)
    ensures var sent := MakePayload(device, d);
            MakePayloadCorrected(device, d) == sent.(oilLevel := sent.oilLevel - (OilLevelUpper - OilLevelLower))
  {
  }

  /** One call of the transport: the topic and payload handed to it (quality of service 0). */
  datatype Message = Message(topic: string, payload: Payload)

  datatype PublishError = InvalidEndpoint | TransportError

  datatype PublishOutcome = Delivered | Rejected(error: PublishError)

  /** What a publish did: the transport calls it made, and how its promise settled. */
  datatype Publish = Publish(calls: seq<Message>, outcome: PublishOutcome)

  /**
    `_publishMessage`: reject at once when no endpoint is configured; otherwise
    hand the message to the transport, whose reply is `transportOk`.
   */
  function PublishMessage(endpoint: string, topic: string, payload: Payload, transportOk: bool): (r: Publish)
    ensures endpoint == "" ==> r.calls == [] && r.outcome == Rejected(InvalidEndpoint)
    ensures endpoint != "" ==> r.calls == [Message(topic, payload)]
    ensures r.outcome == Delivered <==> endpoint != "" && transportOk
  {
    if endpoint == "" then
      Publish([], Rejected(InvalidEndpoint))
    else if transportOk then
      Publish([Message(topic, payload)], Delivered)
    else
      Publish([Message(topic, payload)], Rejected(TransportError))
  }

  /** The engine's options that a tick reads or writes. */
  datatype EngineState = EngineState(iotEndpoint: string, loopIntervalMs: int, device: Device)

  /** Everything one tick produced. */
  datatype TickResult = TickResult(state: EngineState, store: Store, publish: Publish, refresh: RefreshResult)

  /**
    `doWork`: build and publish this tick's payload and renew the lease. Errors of
    either action are caught; the device is replaced only by a successful renewal.
   */
  function Tick(s: EngineState, store: Store, nowMs: int, d: Draws, transportOk: bool, reply: Reply)
    : (t: TickResult)
    requires s.loopIntervalMs % 1000 == 0
    requires ValidDraws(d)
    ensures |t.publish.calls| <= 1
    ensures s.iotEndpoint != "" <==> |t.publish.calls| == 1
    ensures forall m :: m in t.publish.calls ==>
              m.topic == Topic && WellFormedAsWritten(m.payload) && m.payload.deviceId == s.device.deviceId
    ensures t.publish.outcome == Delivered <==> s.iotEndpoint != "" && transportOk
    ensures t.refresh.Ok? <==> reply == Answered && OwnsLease(s, store)
    ensures t.refresh.Err? ==> (t.refresh.error == StoreUnavailable <==> reply != Answered)
    ensures t.state.iotEndpoint == s.iotEndpoint && t.state.loopIntervalMs == s.loopIntervalMs
    ensures t.refresh.Ok? ==> t.state.device == t.refresh.device && OwnsLease(t.state, t.store)
    ensures t.refresh.Err? ==> t.state == s
    ensures reply == Failed || !OwnsLease(s, store) ==> t.store == store
    ensures forall k :: k != s.device.deviceId ==> SameAt(store, t.store, k)
    ensures t.state.device.deviceId == s.device.deviceId
  {
    var payload := MakePayload(s.device, d);
    var publish := PublishMessage(s.iotEndpoint, Topic, payload, transportOk);
    var refresh := RefreshDevice(store, nowMs, s.loopIntervalMs, s.device, reply);
    match refresh.result
    case Ok(renewed) => TickResult(s.(device := renewed), refresh.store, publish, refresh.result)
    case Err(_) => TickResult(s, refresh.store, publish, refresh.result)
  }

  /** The engine holds the lease on its device: the table records exactly the expiry it wrote. */
  predicate OwnsLease(s: EngineState, store: Store)
  {
    HoldsLease(store, s.device)
  }

  /** A tick whose table call does not fail keeps the lease and pushes its expiry to the new lease horizon. */
  lemma TickKeepsLease(s: EngineState, store: Store, nowMs: int, d: Draws, transportOk: bool)
    requires s.loopIntervalMs % 1000 == 0
    requires ValidDraws(d)
    requires OwnsLease(s, store)
    ensures var t := Tick(s, store, nowMs, d, transportOk, Answered);
            && t.refresh.Ok?
            && OwnsLease(t.state, t.store)
            && 1000 * (t.state.device.ttlDevice - NowSeconds(nowMs)) == LeaseIntervals * s.loopIntervalMs
  {
  }

  /**
    Once the lease is lost, no later tick regains it: the engine keeps publishing
    under the id it no longer owns and never acquires a new one.
   */
  lemma LostLeaseStaysLost(s: EngineState, store: Store, nowMs: int, d: Draws, transportOk: bool, reply: Reply)
    requires s.loopIntervalMs % 1000 == 0
    requires ValidDraws(d)
    requires !OwnsLease(s, store)
    ensures var t := Tick(s, store, nowMs, d, transportOk, reply);
            && t.state == s
            && t.store == store
            && !OwnsLease(t.state, t.store)
            && (s.iotEndpoint != "" ==> t.publish.calls[0].payload.deviceId == s.device.deviceId)
  {
  }

  /**
    A renewal that the table wrote but whose reply was lost costs the engine its
    lease: it keeps its old expiry while the table holds the new one.
   */
  lemma UnseenRenewalLosesTick(s: EngineState, store: Store, nowMs: int, d: Draws, transportOk: bool)
    requires s.loopIntervalMs % 1000 == 0
    requires ValidDraws(d)
    requires OwnsLease(s, store)
    requires LeaseExpiry(nowMs, s.loopIntervalMs) != s.device.ttlDevice
    ensures var t := Tick(s, store, nowMs, d, transportOk, FailedAfterWrite);
            t.state == s && !OwnsLease(t.state, t.store)
  {
    UnseenRenewalLosesLease(store, s.device, nowMs, nowMs, s.loopIntervalMs);
  }
}
