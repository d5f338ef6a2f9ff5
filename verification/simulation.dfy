/**
  Scenarios over several calls of the lease protocol and the engine: the lease a
  process acquires keeps other processes off its id, processes that start one
  after another take consecutive ids, and a started process renews its lease.
 */
module Simulation {
  import opened DeviceLease
  import Engine

  /** The loop interval the simulator is configured with. */
  const SimulatorLoopIntervalMs := 30000

  /**
    Two processes acquire against the same table at the same instant: the second
    cannot take the first one's id, and if every probe that failed unwritten for
    the first also fails for the second, it takes a larger id.
   */
  method AcquireTwice(store: Store, nowMs: int, loopIntervalMs: int, replies1: map<int, Reply>, replies2: map<int, Reply>)
    returns (first: Device, second: Device, written: Store)
    requires loopIntervalMs % 1000 == 0
    requires loopIntervalMs > 0
    ensures first.deviceId != second.deviceId
    ensures (forall k :: ReplyAt(replies1, k) == Failed ==> ReplyAt(replies2, k) != Answered) ==>
              first.deviceId < second.deviceId
    ensures first.deviceId in written && written[first.deviceId] == first.ttlDevice
    ensures second.deviceId in written && written[second.deviceId] == second.ttlDevice
  {
    var afterFirst;
    first, afterFirst := GetDevice(store, nowMs, loopIntervalMs, replies1);
    second, written := GetDevice(afterFirst, nowMs, loopIntervalMs, replies2);
    var nowS := NowSeconds(nowMs);
    if forall k :: ReplyAt(replies1, k) == Failed ==> ReplyAt(replies2, k) != Answered {
      forall k | FirstId <= k < first.deviceId
        ensures !Claimable(afterFirst, k, nowS) || ReplyAt(replies2, k) != Answered
      {
        if Orphaned(store, replies1, nowS, k, first.deviceId) {
          assert afterFirst[k] == first.ttlDevice;
        } else {
          assert SameAt(store, afterFirst, k);
        }
      }
    }
  }

  /** The ids `FirstId .. FirstId + n - 1`. */
  function IdRange(n: nat): (ids: set<int>)
    ensures forall k :: k in ids <==> FirstId <= k < FirstId + n
  {
    if n == 0 then {} else IdRange(n - 1) + {FirstId + n - 1}
  }

  /**
    `n` processes start one after another at the same instant against an empty
    table, with no table faults: they take exactly the ids 1000, 1001, ...,
    1000 + n - 1, in that order.
   */
  method AcquireSequentially(n: nat, nowMs: int, loopIntervalMs: int) returns (devices: seq<Device>, store: Store)
    requires loopIntervalMs % 1000 == 0
    requires loopIntervalMs > 0
    ensures |devices| == n
    ensures forall i :: 0 <= i < n ==> devices[i].deviceId == FirstId + i
    ensures store.Keys == IdRange(n)
    ensures forall i :: 0 <= i < n ==> store[devices[i].deviceId] == devices[i].ttlDevice
  {
    devices := [];
    store := map[];
    var i := 0;
    while i < n
      invariant 0 <= i <= n
      invariant |devices| == i
      invariant forall j :: 0 <= j < i ==> devices[j].deviceId == FirstId + j
      invariant store.Keys == IdRange(i)
      invariant forall j :: 0 <= j < i ==> store[devices[j].deviceId] == devices[j].ttlDevice
      invariant forall k :: k in store ==> store[k] > NowSeconds(nowMs)
    {
      assert Claimable(store, FirstId + i, NowSeconds(nowMs)) by {
        assert FirstId + i !in IdRange(i);
      }
      var device, written := GetDevice(store, nowMs, loopIntervalMs, map[]);
      store := written;
      devices := devices + [device];
      i := i + 1;
    }
  }

  /**
    Start-up followed by one tick, with the configured 30-second interval and an
    empty table: the process takes id 1000 with a 120-second lease, publishes one
    well-formed message for device 1000, and the renewal moves the stored expiry
    to 120 seconds after the tick.
   */
  method StartAndTick(startMs: int, tickMs: int, endpoint: string, d: Engine.Draws)
    returns (device: Device, tick: Engine.TickResult)
    requires endpoint != ""
    requires Engine.ValidDraws(d)
    ensures device == Device(1000, NowSeconds(startMs) + 120)
    ensures |tick.publish.calls| == 1
    ensures tick.publish.calls[0].payload.deviceId == 1000
    ensures Engine.WellFormedAsWritten(tick.publish.calls[0].payload)
    ensures tick.publish.outcome == Engine.Delivered
    ensures tick.state.device == Device(1000, NowSeconds(tickMs) + 120)
    ensures tick.store == map[1000 := NowSeconds(tickMs) + 120]
  {
    var store;
    device, store := GetDevice(map[], startMs, SimulatorLoopIntervalMs, map[]);
    assert Claimable(map[], FirstId, NowSeconds(startMs));
    var s := Engine.EngineState(endpoint, SimulatorLoopIntervalMs, device);
    tick := Engine.Tick(s, store, tickMs, d, true, Answered);
  }

  /** The inputs of one tick: the clock, the draws, and the replies of the transport and the table. */
  datatype TickInput = TickInput(nowMs: int, draws: Engine.Draws, transportOk: bool, reply: Reply)

  predicate ValidInputs(inputs: seq<TickInput>)
  {
    forall i :: 0 <= i < |inputs| ==> Engine.ValidDraws(inputs[i].draws)
  }

  /** The state after a run of ticks, and every transport call made along the way. */
  datatype Run = Run(state: Engine.EngineState, store: Store, calls: seq<Engine.Message>)

  /**
    The engine's timer: one tick per input, in order. Whatever the renewals do,
    every message carries the id acquired at start-up and is well formed.
   */
  function RunTicks(s: Engine.EngineState, store: Store, inputs: seq<TickInput>): (r: Run)
    requires s.loopIntervalMs % 1000 == 0
    requires ValidInputs(inputs)
    ensures r.state.device.deviceId == s.device.deviceId
    ensures r.state.iotEndpoint == s.iotEndpoint && r.state.loopIntervalMs == s.loopIntervalMs
    ensures |r.calls| <= |inputs|
    ensures forall m :: m in r.calls ==>
              m.topic == Engine.Topic && Engine.WellFormedAsWritten(m.payload) && m.payload.deviceId == s.device.deviceId
    decreases |inputs|
  {
    if |inputs| == 0 then
      Run(s, store, [])
    else
      var i := inputs[0];
      var t := Engine.Tick(s, store, i.nowMs, i.draws, i.transportOk, i.reply);
      var rest := RunTicks(t.state, t.store, inputs[1..]);
      Run(rest.state, rest.store, t.publish.calls + rest.calls)
  }

  /**
    As long as no table call fails, the engine keeps its lease through any number
    of ticks, and after the last tick the expiry is four intervals after that tick.
   */
  lemma {:induction false} RunKeepsLease(s: Engine.EngineState, store: Store, inputs: seq<TickInput>)
    requires s.loopIntervalMs % 1000 == 0
    requires ValidInputs(inputs)
    requires Engine.OwnsLease(s, store)
    requires forall i :: 0 <= i < |inputs| ==> inputs[i].reply == Answered
    ensures Engine.OwnsLease(RunTicks(s, store, inputs).state, RunTicks(s, store, inputs).store)
    ensures |inputs| > 0 ==>
              1000 * (RunTicks(s, store, inputs).state.device.ttlDevice - NowSeconds(inputs[|inputs| - 1].nowMs))
              == LeaseIntervals * s.loopIntervalMs
    decreases |inputs|
  {
    if |inputs| > 0 {
      var i := inputs[0];
      Engine.TickKeepsLease(s, store, i.nowMs, i.draws, i.transportOk);
      var t := Engine.Tick(s, store, i.nowMs, i.draws, i.transportOk, Answered);
      RunKeepsLease(t.state, t.store, inputs[1..]);
      if |inputs| == 1 {
        assert inputs[1..] == [];
      } else {
        assert inputs[1..][|inputs[1..]| - 1] == inputs[|inputs| - 1];
      }
    }
  }

  /**
    Once the lease is lost and nobody else writes the table, no number of ticks
    changes the engine or the table: it never reacquires an id.
   */
  lemma {:induction false} RunAfterLossIsStuck(s: Engine.EngineState, store: Store, inputs: seq<TickInput>)
    requires s.loopIntervalMs % 1000 == 0
    requires ValidInputs(inputs)
    requires !Engine.OwnsLease(s, store)
    ensures RunTicks(s, store, inputs).state == s
    ensures RunTicks(s, store, inputs).store == store
    decreases |inputs|
  {
    if |inputs| > 0 {
      var i := inputs[0];
      Engine.LostLeaseStaysLost(s, store, i.nowMs, i.draws, i.transportOk, i.reply);
      RunAfterLossIsStuck(s, store, inputs[1..]);
    }
  }
}
