/**
  The identity-leasing protocol of the device simulator.

  The shared lease table ("iot-rm-devices-table") is modelled as a finite map
  from device id to `ttlDevice`, the lease expiry in whole seconds. The two
  conditional writes of the table become pure functions on that map: the
  conditional put used while probing for a free id, and the compare-and-swap
  update used to renew a lease. The clock is an input `nowMs` (milliseconds,
  as `Date.now()` returns it), and how the table answered a call is an input
  `Reply`.
 */
module DeviceLease {

  /** The lease table: device id -> lease expiry in seconds. */
  type Store = map<int, int>

  /** The device identity a simulator process holds: its id and the expiry it last wrote. */
  datatype Device = Device(deviceId: int, ttlDevice: int)

  /**
    How the table answered one conditional write:
    - `Answered`: the table evaluated the condition and the caller saw its verdict;
    - `Failed`: the call failed before the table wrote anything;
    - `FailedAfterWrite`: the table evaluated the condition and wrote if it held,
      but the caller saw an error (a lost response, a timeout).
   */
  datatype Reply = Answered | Failed | FailedAfterWrite

  /** Outcome of one conditional put: whether the caller saw it saved, and the table afterwards. */
  datatype PutResult = PutResult(saved: bool, store: Store)

  /** Why a renewal was rejected: its condition failed, or the table call itself failed. */
  datatype RefreshError = ConditionFailed | StoreUnavailable

  /** What the caller of a renewal sees: the renewed device, or the error it throws. */
  datatype RefreshResult = Ok(device: Device) | Err(error: RefreshError)

  /** One renewal: what the caller saw, and the table afterwards. */
  datatype Refresh = Refresh(result: RefreshResult, store: Store)

  /** The first id a process probes. */
  const FirstId := 1000

  /** A lease lasts this many loop intervals. */
  const LeaseIntervals := 4

  /** `Math.round(nowMs / 1000)`: JavaScript rounds halves up, i.e. floor(x + 1/2). */
  function NowSeconds(nowMs: int): (s: int)
    ensures 1000 * s - 500 <= nowMs < 1000 * s + 500
  {
    (nowMs + 500) / 1000
  }

  /** `loopInterval / 1000 * 4`, for an interval that is a whole number of seconds. */
  function LeaseSeconds(loopIntervalMs: int): (s: int)
    requires loopIntervalMs % 1000 == 0
    ensures 1000 * s == LeaseIntervals * loopIntervalMs
  {
    loopIntervalMs / 1000 * LeaseIntervals
  }

  /** The expiry a process writes at time `nowMs`; for a positive interval it lies in the future. */
  function LeaseExpiry(nowMs: int, loopIntervalMs: int): (ttl: int)
    requires loopIntervalMs % 1000 == 0
    ensures loopIntervalMs > 0 ==> ttl > NowSeconds(nowMs)
    ensures 1000 * (ttl - NowSeconds(nowMs)) == LeaseIntervals * loopIntervalMs
  {
    NowSeconds(nowMs) + LeaseSeconds(loopIntervalMs)
  }

  /**
    The condition of the put, `attribute_not_exists(deviceId) OR ttlDevice <= :ttl`:
    the id has no record, or its lease has expired at `nowS`.
   */
  predicate Claimable(store: Store, id: int, nowS: int)
  {
    id !in store || store[id] <= nowS
  }

  /** The condition of the renewal, `ttlDevice = :t`: the table still holds the expiry the device last wrote. */
  predicate HoldsLease(store: Store, device: Device)
  {
    device.deviceId in store && store[device.deviceId] == device.ttlDevice
  }

  /** Key `k` is the same in both tables: absent from both, or present with equal expiry. */
  predicate SameAt(store: Store, store': Store, k: int)
  {
    (k in store <==> k in store') && (k in store ==> store[k] == store'[k])
  }

  /**
    `_saveDeviceId`: a conditional put of `{deviceId: id, ttlDevice: ttl}`.
    Every error, the failed condition included, is reported as `false`, even
    when the table did write the record.
   */
  function SaveDeviceId(store: Store, id: int, ttl: int, nowMs: int, reply: Reply): (r: PutResult)
    ensures r.saved <==> reply == Answered && Claimable(store, id, NowSeconds(nowMs))
    ensures reply != Failed && Claimable(store, id, NowSeconds(nowMs)) ==> id in r.store && r.store[id] == ttl
    ensures reply == Failed || !Claimable(store, id, NowSeconds(nowMs)) ==> r.store == store
    ensures forall k :: k != id ==> SameAt(store, r.store, k)
  {
    var applies := reply != Failed && Claimable(store, id, NowSeconds(nowMs));
    PutResult(applies && reply == Answered, if applies then store[id := ttl] else store)
  }

  /** How the table answers the probe of `id`: ids without an entry in `replies` are answered. */
  function ReplyAt(replies: map<int, Reply>, id: int): Reply
  {
    if id in replies then replies[id] else Answered
  }

  /** The ids at or above `id` that a probe could still find taken or failing. */
  function Pending(store: Store, replies: map<int, Reply>, id: int): set<int>
  {
    set k | k in store.Keys + replies.Keys && id <= k
  }

  /** Passing an id that has a record or a scripted reply leaves fewer pending ids. */
  lemma PendingShrinks(store: Store, replies: map<int, Reply>, id: int)
    requires id in store || id in replies
    ensures Pending(store, replies, id + 1) < Pending(store, replies, id)
  {
    assert id in Pending(store, replies, id);
    assert id !in Pending(store, replies, id + 1);
  }

  /**
    A probe below `stop` that the caller saw fail but that the table wrote:
    the record stays behind as a live lease nobody renews.
   */
  predicate Orphaned(store: Store, replies: map<int, Reply>, nowS: int, k: int, stop: int)
  {
    FirstId <= k < stop && ReplyAt(replies, k) == FailedAfterWrite && Claimable(store, k, nowS)
  }

  /**
    `getDevice`: probe ids upwards from 1000 until a conditional put is seen to
    succeed. The clock is fixed for the whole probe, and the table changes only
    by the probe's own writes; `replies` says how the table answered each probe.
   */
  method GetDevice(store: Store, nowMs: int, loopIntervalMs: int, replies: map<int, Reply>)
    returns (device: Device, written: Store)
    requires loopIntervalMs % 1000 == 0
    ensures FirstId <= device.deviceId
    ensures Claimable(store, device.deviceId, NowSeconds(nowMs)) && ReplyAt(replies, device.deviceId) == Answered
    ensures forall k :: FirstId <= k < device.deviceId ==>
              !Claimable(store, k, NowSeconds(nowMs)) || ReplyAt(replies, k) != Answered
    ensures 1000 * (device.ttlDevice - NowSeconds(nowMs)) == LeaseIntervals * loopIntervalMs
    ensures device.deviceId in written && written[device.deviceId] == device.ttlDevice
    ensures forall k :: Orphaned(store, replies, NowSeconds(nowMs), k, device.deviceId) ==>
              k in written && written[k] == device.ttlDevice
    ensures forall k :: k != device.deviceId && !Orphaned(store, replies, NowSeconds(nowMs), k, device.deviceId) ==>
              SameAt(store, written, k)
    ensures FailedAfterWrite !in replies.Values ==> written == store[device.deviceId := device.ttlDevice]
  {
    var gotId := false;
    var id := FirstId;
    var ttlDevice := LeaseExpiry(nowMs, loopIntervalMs);
    written := store;
    while !gotId
      invariant FirstId <= id
      invariant ttlDevice == LeaseExpiry(nowMs, loopIntervalMs)
      invariant forall k :: FirstId <= k < id ==>
                  !Claimable(store, k, NowSeconds(nowMs)) || ReplyAt(replies, k) != Answered
      invariant forall k :: Orphaned(store, replies, NowSeconds(nowMs), k, id) ==>
                  k in written && written[k] == ttlDevice
      invariant forall k :: !Orphaned(store, replies, NowSeconds(nowMs), k, id) ==> SameAt(store, written, k)
      invariant !gotId
      decreases Pending(store, replies, id)
    {
      ttlDevice := LeaseExpiry(nowMs, loopIntervalMs);
      assert !Orphaned(store, replies, NowSeconds(nowMs), id, id);
      assert SameAt(store, written, id);
      var put := SaveDeviceId(written, id, ttlDevice, nowMs, ReplyAt(replies, id));
      if put.saved {
        written := put.store;
        gotId := true;
        break;
      }
      forall k | Orphaned(store, replies, NowSeconds(nowMs), k, id + 1)
        ensures k in put.store && put.store[k] == ttlDevice
      {
        if k != id {
          assert Orphaned(store, replies, NowSeconds(nowMs), k, id);
          assert SameAt(written, put.store, k);
        }
      }
      forall k | !Orphaned(store, replies, NowSeconds(nowMs), k, id + 1)
        ensures SameAt(store, put.store, k)
      {
        if k != id {
          assert !Orphaned(store, replies, NowSeconds(nowMs), k, id);
          assert SameAt(written, put.store, k);
        }
      }
      written := put.store;
      PendingShrinks(store, replies, id);
      id := id + 1;
    }
    device := Device(id, ttlDevice);
    if FailedAfterWrite !in replies.Values {
      WithoutLostRepliesNoOrphans(store, replies, NowSeconds(nowMs), device, written);
    }
  }

  /** With no lost replies there are no orphaned records: the probe wrote only the record it acquired. */
  lemma WithoutLostRepliesNoOrphans(store: Store, replies: map<int, Reply>, nowS: int, device: Device, written: Store)
    requires FailedAfterWrite !in replies.Values
    requires device.deviceId in written && written[device.deviceId] == device.ttlDevice
    requires forall k :: k != device.deviceId && !Orphaned(store, replies, nowS, k, device.deviceId) ==>
               SameAt(store, written, k)
    ensures written == store[device.deviceId := device.ttlDevice]
  {
    forall k | k != device.deviceId
      ensures SameAt(store, written, k)
    {
      if k in replies {
        assert replies[k] in replies.Values;
      }
      assert !Orphaned(store, replies, nowS, k, device.deviceId);
    }
    var expected := store[device.deviceId := device.ttlDevice];
    assert forall k :: k in written <==> k in expected by {
      forall k ensures k in written <==> k in expected {
        if k != device.deviceId {
          assert SameAt(store, written, k);
        }
      }
    }
    assert forall k :: k in written ==> written[k] == expected[k] by {
      forall k | k in written ensures written[k] == expected[k] {
        if k != device.deviceId {
          assert SameAt(store, written, k);
        }
      }
    }
    MapsAgreeEverywhere(written, expected);
  }

  /** Two tables with the same keys and the same expiry at every key are equal. */
  lemma MapsAgreeEverywhere(m: map<int, int>, m': map<int, int>)
    requires forall k :: k in m <==> k in m'
    requires forall k :: k in m ==> m[k] == m'[k]
    ensures m == m'
  {
    assert m.Keys == m'.Keys by {
      forall k ensures k in m.Keys <==> k in m'.Keys {
      }
    }
    forall k | k in m.Keys
      ensures m[k] == m'[k]
    {
    }
  }

  /** What the corrected probe ends with: an acquired device, or the id whose put hit a table error. */
  datatype ProbeResult = Acquired(device: Device) | Unavailable(id: int)

  /**
    The probe as intended: a put that fails for a reason other than its
    condition stops the probe and is reported, instead of being taken for a
    live lease. Every id the probe passes over therefore holds a live record.
   */
  method GetDeviceReportingErrors(store: Store, nowMs: int, loopIntervalMs: int, replies: map<int, Reply>)
    returns (r: ProbeResult, written: Store)
    requires loopIntervalMs % 1000 == 0
    ensures r.Acquired? ==>
              && FirstId <= r.device.deviceId
              && Claimable(store, r.device.deviceId, NowSeconds(nowMs))
              && ReplyAt(replies, r.device.deviceId) == Answered
              && 1000 * (r.device.ttlDevice - NowSeconds(nowMs)) == LeaseIntervals * loopIntervalMs
              && written == store[r.device.deviceId := r.device.ttlDevice]
    ensures r.Unavailable? ==> FirstId <= r.id && ReplyAt(replies, r.id) != Answered
    ensures r.Unavailable? ==> forall k :: k != r.id ==> SameAt(store, written, k)
    ensures var stop := if r.Acquired? then r.device.deviceId else r.id;
            forall k :: FirstId <= k < stop ==> !Claimable(store, k, NowSeconds(nowMs))
  {
    var id := FirstId;
    var ttlDevice := LeaseExpiry(nowMs, loopIntervalMs);
    while true
      invariant FirstId <= id
      invariant forall k :: FirstId <= k < id ==> !Claimable(store, k, NowSeconds(nowMs))
      decreases Pending(store, replies, id)
    {
      var reply := ReplyAt(replies, id);
      var put := SaveDeviceId(store, id, ttlDevice, nowMs, reply);
      if put.saved {
        return Acquired(Device(id, ttlDevice)), put.store;
      }
      if reply != Answered {
        return Unavailable(id), put.store;
      }
      PendingShrinks(store, replies, id);
      id := id + 1;
    }
  }

  /** The replies of a table that fails the first `n` probes, ids 1000 .. 1000 + n - 1, before writing. */
  function FailingProbes(n: nat): (replies: map<int, Reply>)
    ensures forall k :: k in replies <==> FirstId <= k < FirstId + n
    ensures forall k :: k in replies ==> replies[k] == Failed
  {
    if n == 0 then map[] else FailingProbes(n - 1)[FirstId + n - 1 := Failed]
  }

  /**
    The probe as written reads a table error as a taken id: when the first `n`
    puts fail, it moves past all of them, whatever `n` is. A table that always
    fails (no table, no credentials) therefore keeps the probe running forever.
   */
  method ProbeThroughErrors(nowMs: int, loopIntervalMs: int, n: nat) returns (device: Device)
    requires loopIntervalMs % 1000 == 0
    ensures device.deviceId == FirstId + n
  {
    var written;
    device, written := GetDevice(map[], nowMs, loopIntervalMs, FailingProbes(n));
    assert ReplyAt(FailingProbes(n), FirstId + n) == Answered;
    assert Claimable(map[], FirstId + n, NowSeconds(nowMs));
  }

  /** The intended probe reports the first table error instead of moving past it. */
  method ProbeStopsAtFirstError(nowMs: int, loopIntervalMs: int, n: nat) returns (r: ProbeResult)
    requires loopIntervalMs % 1000 == 0
    requires n > 0
    ensures r == Unavailable(FirstId)
  {
    var written;
    r, written := GetDeviceReportingErrors(map[], nowMs, loopIntervalMs, FailingProbes(n));
    assert FirstId in FailingProbes(n);
    assert Claimable(map[], FirstId, NowSeconds(nowMs));
  }

  /**
    `refreshDevice`: renew the lease by an update conditioned on `ttlDevice = :t`,
    the expiry this process last wrote. Every error is thrown, so the caller's
    device is left as it was, even when the table did write the new expiry.
   */
  function RefreshDevice(store: Store, nowMs: int, loopIntervalMs: int, device: Device, reply: Reply)
    : (r: Refresh)
    requires loopIntervalMs % 1000 == 0
    ensures r.result.Ok? <==> reply == Answered && HoldsLease(store, device)
    ensures r.result.Err? ==> (r.result.error == StoreUnavailable <==> reply != Answered)
    ensures r.result.Ok? ==> r.result.device.deviceId == device.deviceId && HoldsLease(r.store, r.result.device)
    ensures reply != Failed && HoldsLease(store, device) ==>
              device.deviceId in r.store
              && 1000 * (r.store[device.deviceId] - NowSeconds(nowMs)) == LeaseIntervals * loopIntervalMs
    ensures reply == Failed || !HoldsLease(store, device) ==> r.store == store
    ensures forall k :: k != device.deviceId ==> SameAt(store, r.store, k)
  {
    var newTtlDevice := LeaseExpiry(nowMs, loopIntervalMs);
    var applies := reply != Failed && HoldsLease(store, device);
    var store' := if applies then store[device.deviceId := newTtlDevice] else store;
    if reply != Answered then
      Refresh(Err(StoreUnavailable), store')
    else if applies then
      Refresh(Ok(device.(ttlDevice := newTtlDevice)), store')
    else
      Refresh(Err(ConditionFailed), store')
  }

  /** The clock in seconds never runs backwards when the clock in milliseconds does not. */
  lemma NowSecondsMonotone(t1: int, t2: int)
    requires t1 <= t2
    ensures NowSeconds(t1) <= NowSeconds(t2)
  {
  }

  /**
    The lease fence: once a put for `id` has saved expiry `ttl`, a later put for
    the same id succeeds exactly when that expiry has passed.
   */
  lemma PutFence(store: Store, id: int, ttl: int, nowMs: int, laterMs: int, ttl': int)
    requires SaveDeviceId(store, id, ttl, nowMs, Answered).saved
    ensures SaveDeviceId(SaveDeviceId(store, id, ttl, nowMs, Answered).store, id, ttl', laterMs, Answered).saved
            <==> ttl <= NowSeconds(laterMs)
  {
  }

  /**
    A process that still holds its record can always renew it; chained renewals
    move the expiry forward by exactly the time that passed in between.
   */
  lemma RefreshChain(store: Store, device: Device, t1: int, t2: int, loopIntervalMs: int)
    requires loopIntervalMs % 1000 == 0
    requires RefreshDevice(store, t1, loopIntervalMs, device, Answered).result.Ok?
    ensures var first := RefreshDevice(store, t1, loopIntervalMs, device, Answered);
            var second := RefreshDevice(first.store, t2, loopIntervalMs, first.result.device, Answered);
            && second.result.Ok?
            && second.result.device.ttlDevice - first.result.device.ttlDevice == NowSeconds(t2) - NowSeconds(t1)
            && (t1 <= t2 ==> first.result.device.ttlDevice <= second.result.device.ttlDevice)
  {
    if t1 <= t2 {
      NowSecondsMonotone(t1, t2);
    }
  }

  /**
    Lease loss: when another process has reclaimed the id with a different expiry,
    the renewal is rejected as a failed condition, not as a table failure.
   */
  lemma StaleRefreshFails(store: Store, device: Device, reclaimMs: int, ttl': int, nowMs: int, loopIntervalMs: int)
    requires loopIntervalMs % 1000 == 0
    requires SaveDeviceId(store, device.deviceId, ttl', reclaimMs, Answered).saved
    requires ttl' != device.ttlDevice
    ensures RefreshDevice(SaveDeviceId(store, device.deviceId, ttl', reclaimMs, Answered).store,
                          nowMs, loopIntervalMs, device, Answered).result == Err(ConditionFailed)
  {
  }

  /** A renewed lease cannot be claimed by anyone until its new expiry has passed. */
  lemma RefreshedLeaseIsFenced(store: Store, device: Device, nowMs: int, laterMs: int, loopIntervalMs: int)
    requires loopIntervalMs % 1000 == 0
    requires RefreshDevice(store, nowMs, loopIntervalMs, device, Answered).result.Ok?
    ensures var renewed := RefreshDevice(store, nowMs, loopIntervalMs, device, Answered);
            Claimable(renewed.store, device.deviceId, NowSeconds(laterMs))
            <==> renewed.result.device.ttlDevice <= NowSeconds(laterMs)
  {
  }

  /**
    A renewal whose write took effect but whose reply was lost leaves the table
    ahead of the device: the caller keeps its old expiry, and every later
    renewal with that device fails its condition.
   */
  lemma UnseenRenewalLosesLease(store: Store, device: Device, nowMs: int, laterMs: int, loopIntervalMs: int)
    requires loopIntervalMs % 1000 == 0
    requires HoldsLease(store, device)
    requires LeaseExpiry(nowMs, loopIntervalMs) != device.ttlDevice
    ensures var r := RefreshDevice(store, nowMs, loopIntervalMs, device, FailedAfterWrite);
            && r.result == Err(StoreUnavailable)
            && !HoldsLease(r.store, device)
            && RefreshDevice(r.store, laterMs, loopIntervalMs, device, Answered).result == Err(ConditionFailed)
  {
  }
}
