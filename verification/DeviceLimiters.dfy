/** The limiters for each device and for all, as the configuration changes
    (lib/connections/limiter.go). */
module DeviceLimiters {
  import opened Wrappers
  import opened RateLimit

  type DeviceID = nat

  // Limits are in KiB/s; none means no limit.
  datatype Device = Device(id: DeviceID, maxSendKbps: int, maxRecvKbps: int)

  datatype Config = Config(devices: seq<Device>, maxSendKbps: int, maxRecvKbps: int, limitBandwidthInLan: bool)

  type Limiters = map<DeviceID, Rate>

  const NO_CONFIG := Config([], -1, -1, false)

  function RateOf(kbps: int): Rate {
    if kbps <= 0 then Inf else PerSecond(kbps * 1024)
  }

  datatype Direction = Send | Recv

  function LimitOf(d: Device, dir: Direction): Rate {
    RateOf(if dir.Send? then d.maxSendKbps else d.maxRecvKbps)
  }

  /** Limits are in KiB/s, for each direction on its own, and only numbers above zero limit. */
  lemma LimitsMean(d: Device)
    ensures LimitOf(d, Send) == if d.maxSendKbps > 0 then PerSecond(1024 * d.maxSendKbps) else Inf
    ensures LimitOf(d, Recv) == if d.maxRecvKbps > 0 then PerSecond(1024 * d.maxRecvKbps) else Inf
  {
  }

  /** The limit that a configuration sets for another device, by the last entry for it. */
  ghost function Configured(devices: seq<Device>, myID: DeviceID, id: DeviceID, dir: Direction): Option<Rate> {
    if devices == [] || id == myID then None
    else if devices[|devices| - 1].id == id then Some(LimitOf(devices[|devices| - 1], dir))
    else Configured(devices[..|devices| - 1], myID, id, dir)
  }

  ghost predicate HasDevice(devices: seq<Device>, id: DeviceID) {
    exists d :: d in devices && d.id == id
  }

  lemma {:induction false} ConfiguredMeansListed(devices: seq<Device>, myID: DeviceID, id: DeviceID, dir: Direction)
    ensures Configured(devices, myID, id, dir).Some? <==> id != myID && HasDevice(devices, id)
  {
    if devices != [] {
      var init, d := devices[..|devices| - 1], devices[|devices| - 1];
      ConfiguredMeansListed(init, myID, id, dir);
      assert devices == init + [d];
      OneMoreDevice(init, d, id);
    }
  }

  /** Of a device that is listed once both limits are those of its entry. */
  lemma {:induction false} ConfiguredAsListed(devices: seq<Device>, myID: DeviceID, dir: Direction, i: nat)
    requires i < |devices| && devices[i].id != myID
    requires forall k :: 0 <= k < |devices| && k != i ==> devices[k].id != devices[i].id
    ensures Configured(devices, myID, devices[i].id, dir) == Some(LimitOf(devices[i], dir))
  {
    if i < |devices| - 1 {
      ConfiguredAsListed(devices[..|devices| - 1], myID, dir, i);
    }
  }

  lemma OneMoreDevice(devices: seq<Device>, d: Device, id: DeviceID)
    ensures HasDevice(devices + [d], id) <==> HasDevice(devices, id) || d.id == id
  {
    assert d in devices + [d];
    if HasDevice(devices, id) {
      var e :| e in devices && e.id == id;
      assert e in devices + [d];
    }
  }

  /** After the loop over the new devices. */
  ghost predicate AreSet(before: Limiters, after: Limiters, devices: seq<Device>, myID: DeviceID, dir: Direction) {
    && (forall id :: id in after <==> id in before || Configured(devices, myID, id, dir).Some?)
    && (forall id :: id in after ==> after[id] == match Configured(devices, myID, id, dir)
                                                  case Some(rate) => rate
                                                  case None => before[id])
  }

  /** What a change of configuration does to the limiters of one direction. */
  ghost predicate AreChanged(before: Limiters, after: Limiters, from: seq<Device>, to: seq<Device>, myID: DeviceID,
      dir: Direction) {
    && (forall id :: id in after <==>
          Configured(to, myID, id, dir).Some? || (id in before && !HasDevice(from, id)))
    && (forall id :: id in after ==> after[id] == match Configured(to, myID, id, dir)
                                                  case Some(rate) => rate
                                                  case None => before[id])
  }

  /** Each configured device has its limit; others may have a limiter if one was asked for, but then
      they are not limited. */
  ghost predicate AreUpToDate(limiters: Limiters, devices: seq<Device>, myID: DeviceID, dir: Direction,
      requested: set<DeviceID>) {
    && (forall id :: Configured(devices, myID, id, dir).Some? ==> id in limiters)
    && (forall id :: id in limiters ==>
          limiters[id] == match Configured(devices, myID, id, dir) case Some(rate) => rate case None => Inf)
    && (forall id :: id in limiters ==> Configured(devices, myID, id, dir).Some? || id in requested)
  }

  // ---------- The overall limits ----------

  /** The limits that apply to all devices together. */
  datatype Overall = Overall(write: Rate, read: Rate, limitsLAN: bool)

  function OverallOf(c: Config): Overall {
    Overall(RateOf(c.maxSendKbps), RateOf(c.maxRecvKbps), c.limitBandwidthInLan)
  }

  lemma OverallMeans(c: Config)
    ensures OverallOf(c).write == if c.maxSendKbps > 0 then PerSecond(1024 * c.maxSendKbps) else Inf
    ensures OverallOf(c).read == if c.maxRecvKbps > 0 then PerSecond(1024 * c.maxRecvKbps) else Inf
    ensures OverallOf(c).limitsLAN == c.limitBandwidthInLan
  {
  }

  ghost predicate SameOptions(a: Config, b: Config) {
    a.maxRecvKbps == b.maxRecvKbps && a.maxSendKbps == b.maxSendKbps && a.limitBandwidthInLan == b.limitBandwidthInLan
  }

  /** All limits, and what a change of configuration does to them. */
  datatype Limits = Limits(overall: Overall, read: Limiters, write: Limiters)

  ghost predicate IsCommit(s: Limits, from: Config, to: Config, myID: DeviceID, t: Limits) {
    && AreChanged(s.read, t.read, from.devices, to.devices, myID, Recv)
    && AreChanged(s.write, t.write, from.devices, to.devices, myID, Send)
    && t.overall == if SameOptions(from, to) then s.overall else OverallOf(to)
  }

  ghost predicate FollowConfig(s: Limits, cfg: Config, myID: DeviceID, requested: set<DeviceID>) {
    && AreUpToDate(s.read, cfg.devices, myID, Recv, requested)
    && AreUpToDate(s.write, cfg.devices, myID, Send, requested)
    && s.overall == OverallOf(cfg)
  }

  lemma OneMoreSet(before: Limiters, after: Limiters, devices: seq<Device>, d: Device, myID: DeviceID, dir: Direction)
    requires AreSet(before, after, devices, myID, dir)
    ensures AreSet(before, if d.id == myID then after else after[d.id := LimitOf(d, dir)], devices + [d], myID, dir)
  {
    assert (devices + [d])[..|devices|] == devices;
  }

  lemma NothingSet(before: Limiters, devices: seq<Device>, myID: DeviceID, dir: Direction)
    ensures AreSet(before, before, devices[..0], myID, dir)
    ensures forall id :: !HasDevice(devices[..0], id)
  {
  }

  lemma SetAndRestricted(before: Limiters, mid: Limiters, after: Limiters, from: seq<Device>, to: seq<Device>,
      seen: set<DeviceID>, myID: DeviceID, dir: Direction)
    requires AreSet(before, mid, to, myID, dir) && IsRestriction(mid, after, from, seen)
    requires forall id :: id in seen <==> id != myID && HasDevice(to, id)
    ensures AreChanged(before, after, from, to, myID, dir)
  {
    forall id ensures Configured(to, myID, id, dir).Some? <==> id in seen {
      ConfiguredMeansListed(to, myID, id, dir);
    }
    hide Configured;
    hide HasDevice;
  }

  class Limiter {
    const myID: DeviceID
    var write: Rate
    var read: Rate
    var limitsLAN: bool
    var deviceReadLimiters: Limiters
    var deviceWriteLimiters: Limiters
    // The latest configuration, and the devices for which limiters were asked.
    ghost var cfg: Config
    ghost var requested: set<DeviceID>

    ghost function View(): Limits
      reads this
    {
      Limits(Overall(write, read, limitsLAN), deviceReadLimiters, deviceWriteLimiters)
    }

    ghost predicate Valid()
      reads this
    {
      FollowConfig(View(), cfg, myID, requested)
    }

    constructor (myID: DeviceID, initial: Config)
      ensures Valid() && this.myID == myID && cfg == initial && requested == {}
    {
      this.myID := myID;
      write, read, limitsLAN := Inf, Inf, false;
      deviceReadLimiters, deviceWriteLimiters := map[], map[];
      cfg, requested := NO_CONFIG, {};
      new;
      CommitConfiguration(NO_CONFIG, initial);
    }

    method GetReadLimiterLocked(id: DeviceID) returns (limit: Rate)
      modifies this`deviceReadLimiters
      ensures deviceReadLimiters ==
          (if id in old(deviceReadLimiters) then old(deviceReadLimiters) else old(deviceReadLimiters)[id := Inf])
      ensures id in deviceReadLimiters && limit == deviceReadLimiters[id]
    {
      if id !in deviceReadLimiters {
        deviceReadLimiters := deviceReadLimiters[id := Inf];
      }
      limit := deviceReadLimiters[id];
    }

    method GetWriteLimiterLocked(id: DeviceID) returns (limit: Rate)
      modifies this`deviceWriteLimiters
      ensures deviceWriteLimiters ==
          (if id in old(deviceWriteLimiters) then old(deviceWriteLimiters) else old(deviceWriteLimiters)[id := Inf])
      ensures id in deviceWriteLimiters && limit == deviceWriteLimiters[id]
    {
      if id !in deviceWriteLimiters {
        deviceWriteLimiters := deviceWriteLimiters[id := Inf];
      }
      limit := deviceWriteLimiters[id];
    }

    method SetLimitsLocked(device: Device) returns (changed: bool)
      modifies this`deviceReadLimiters, this`deviceWriteLimiters
      ensures deviceReadLimiters == old(deviceReadLimiters)[device.id := LimitOf(device, Recv)]
      ensures deviceWriteLimiters == old(deviceWriteLimiters)[device.id := LimitOf(device, Send)]
    {
      var previousReadLimit := GetReadLimiterLocked(device.id);
      var previousWriteLimit := GetWriteLimiterLocked(device.id);
      var currentReadLimit := RateOf(device.maxRecvKbps);
      var currentWriteLimit := RateOf(device.maxSendKbps);
      if previousWriteLimit == currentWriteLimit && previousReadLimit == currentReadLimit {
        return false;
      }
      deviceReadLimiters := deviceReadLimiters[device.id := currentReadLimit];
      deviceWriteLimiters := deviceWriteLimiters[device.id := currentWriteLimit];
      return true;
    }

    method ProcessDevicesConfigurationLocked(from: Config, to: Config)
      modifies this`deviceReadLimiters, this`deviceWriteLimiters
      ensures AreChanged(old(deviceReadLimiters), deviceReadLimiters, from.devices, to.devices, myID, Recv)
      ensures AreChanged(old(deviceWriteLimiters), deviceWriteLimiters, from.devices, to.devices, myID, Send)
    {
      hide *;
      var seen: set<DeviceID> := {};
      NothingSet(deviceReadLimiters, to.devices, myID, Recv);
      NothingSet(deviceWriteLimiters, to.devices, myID, Send);
      for i := 0 to |to.devices|
        invariant forall id :: id in seen <==> id != myID && HasDevice(to.devices[..i], id)
        invariant AreSet(old(deviceReadLimiters), deviceReadLimiters, to.devices[..i], myID, Recv)
        invariant AreSet(old(deviceWriteLimiters), deviceWriteLimiters, to.devices[..i], myID, Send)
      {
        var dev := to.devices[i];
        OneMoreSet(old(deviceReadLimiters), deviceReadLimiters, to.devices[..i], dev, myID, Recv);
        OneMoreSet(old(deviceWriteLimiters), deviceWriteLimiters, to.devices[..i], dev, myID, Send);
        assert to.devices[..i + 1] == to.devices[..i] + [dev];
        forall id ensures HasDevice(to.devices[..i + 1], id) <==> HasDevice(to.devices[..i], id) || dev.id == id {
          OneMoreDevice(to.devices[..i], dev, id);
        }
        if dev.id == myID {
          continue;
        }
        seen := seen + {dev.id};
        var _ := SetLimitsLocked(dev);
      }
      assert to.devices[..|to.devices|] == to.devices;
      ghost var read, write := deviceReadLimiters, deviceWriteLimiters;
      DeleteUnseen(from, seen);
      SetAndRestricted(old(deviceReadLimiters), read, deviceReadLimiters, from.devices, to.devices, seen, myID, Recv);
      SetAndRestricted(old(deviceWriteLimiters), write, deviceWriteLimiters, from.devices, to.devices, seen, myID,
        Send);
    }

    method DeleteUnseen(from: Config, seen: set<DeviceID>)
      modifies this`deviceReadLimiters, this`deviceWriteLimiters
      ensures IsRestriction(old(deviceReadLimiters), deviceReadLimiters, from.devices, seen)
      ensures IsRestriction(old(deviceWriteLimiters), deviceWriteLimiters, from.devices, seen)
    {
      for i := 0 to |from.devices|
        invariant IsRestriction(old(deviceReadLimiters), deviceReadLimiters, from.devices[..i], seen)
        invariant IsRestriction(old(deviceWriteLimiters), deviceWriteLimiters, from.devices[..i], seen)
      {
        var dev := from.devices[i];
        assert from.devices[..i + 1] == from.devices[..i] + [dev];
        forall id ensures HasDevice(from.devices[..i + 1], id) <==> HasDevice(from.devices[..i], id) || dev.id == id {
          OneMoreDevice(from.devices[..i], dev, id);
        }
        hide HasDevice;
        if dev.id !in seen {
          deviceWriteLimiters := deviceWriteLimiters - {dev.id};
          deviceReadLimiters := deviceReadLimiters - {dev.id};
        }
      }
      assert from.devices[..|from.devices|] == from.devices;
    }

    /** If the change follows on the latest configuration, all limits are up to date afterwards. */
    method CommitConfiguration(from: Config, to: Config)
      modifies this
      ensures IsCommit(old(View()), from, to, myID, View())
      ensures cfg == to && requested == old(requested)
      ensures old(Valid()) && from == old(cfg) ==> Valid()
    {
      hide AreUpToDate;
      hide AreChanged;
      ghost var s := View();
      CommitFollows(s, from, to, myID, requested);
      ProcessDevicesConfigurationLocked(from, to);
      cfg := to;
      if from.maxRecvKbps == to.maxRecvKbps && from.maxSendKbps == to.maxSendKbps &&
         from.limitBandwidthInLan == to.limitBandwidthInLan {
        assert IsCommit(s, from, to, myID, View());
        return;
      }
      if to.maxRecvKbps <= 0 {
        read := Inf;
      } else {
        read := PerSecond(1024 * to.maxRecvKbps);
      }
      if to.maxSendKbps <= 0 {
        write := Inf;
      } else {
        write := PerSecond(1024 * to.maxSendKbps);
      }
      limitsLAN := to.limitBandwidthInLan;
      assert IsCommit(s, from, to, myID, View());
    }

    /** A connection may be made with a device that is not in the configuration; it is not limited. */
    method GetLimiters(id: DeviceID) returns (readLimit: Rate, writeLimit: Rate)
      requires Valid()
      modifies this
      ensures Valid() && cfg == old(cfg) && requested == old(requested) + {id}
      ensures readLimit == match Configured(cfg.devices, myID, id, Recv) case Some(rate) => rate case None => Inf
      ensures writeLimit == match Configured(cfg.devices, myID, id, Send) case Some(rate) => rate case None => Inf
    {
      writeLimit := GetWriteLimiterLocked(id);
      readLimit := GetReadLimiterLocked(id);
      requested := requested + {id};
    }
  }

  /** Without the listed devices that were not seen. */
  ghost predicate IsRestriction(before: Limiters, after: Limiters, devices: seq<Device>, seen: set<DeviceID>) {
    && (forall id :: id in after <==> id in before && (id in seen || !HasDevice(devices, id)))
    && (forall id :: id in after ==> after[id] == before[id])
  }

  /** If the limiters were up to date with the old configuration, they are so with the new one. */
  lemma ChangedAreUpToDate(
      before: Limiters, after: Limiters, from: seq<Device>, to: seq<Device>,
      myID: DeviceID, dir: Direction, requested: set<DeviceID>)
    requires AreChanged(before, after, from, to, myID, dir) && AreUpToDate(before, from, myID, dir, requested)
    ensures AreUpToDate(after, to, myID, dir, requested)
  {
    forall id | id in after && Configured(to, myID, id, dir).None? ensures after[id] == Inf && id in requested {
      ConfiguredMeansListed(from, myID, id, dir);
    }
  }

  lemma CommitFollows(s: Limits, from: Config, to: Config, myID: DeviceID, requested: set<DeviceID>)
    ensures forall t :: FollowConfig(s, from, myID, requested) && IsCommit(s, from, to, myID, t) ==>
                          FollowConfig(t, to, myID, requested)
  {
    forall t | FollowConfig(s, from, myID, requested) && IsCommit(s, from, to, myID, t)
      ensures FollowConfig(t, to, myID, requested)
    {
      hide AreUpToDate;
      hide AreChanged;
      ChangedAreUpToDate(s.read, t.read, from.devices, to.devices, myID, Recv, requested);
      ChangedAreUpToDate(s.write, t.write, from.devices, to.devices, myID, Send, requested);
    }
  }

  // ---------- A change while the limiter is made ----------

  const NO_LIMITS := Limits(Overall(Inf, Inf, false), map[], map[])

  /** Every device limited by the one configuration has the same limit in the other. */
  ghost predicate KeepsLimits(before: seq<Device>, after: seq<Device>, myID: DeviceID, dir: Direction) {
    forall id :: Configured(before, myID, id, dir).Some? ==>
      Configured(after, myID, id, dir) == Configured(before, myID, id, dir)
  }

  /** A late commit of the old configuration does no harm: all of its limits are also in the new one. */
  ghost predicate DoesNoHarm(before: Config, after: Config, myID: DeviceID) {
    && KeepsLimits(before.devices, after.devices, myID, Recv) && KeepsLimits(before.devices, after.devices, myID, Send)
    && (SameOptions(NO_CONFIG, before) || OverallOf(before) == OverallOf(after))
  }

  lemma LateCommitOfDevices(m1: Limiters, m2: Limiters, before: seq<Device>, after: seq<Device>, copy: seq<Device>,
      myID: DeviceID, dir: Direction)
    requires copy == before || copy == after
    requires AreChanged(map[], m1, before, after, myID, dir) && AreChanged(m1, m2, [], copy, myID, dir)
    ensures AreUpToDate(m2, after, myID, dir, {}) <==> KeepsLimits(copy, after, myID, dir)
    ensures copy == after ==> KeepsLimits(copy, after, myID, dir)
  {
    assert forall id :: id in m1 <==> Configured(after, myID, id, dir).Some?;
    assert forall id :: id in m2 <==> Configured(copy, myID, id, dir).Some? || id in m1;
  }

  lemma EarlyCommitOfDevices(m1: Limiters, m2: Limiters, before: seq<Device>, after: seq<Device>, copy: seq<Device>,
      myID: DeviceID, dir: Direction)
    requires copy == before || copy == after
    requires AreChanged(map[], m1, [], copy, myID, dir) && AreChanged(m1, m2, before, after, myID, dir)
    ensures AreUpToDate(m2, after, myID, dir, {})
  {
    forall id ensures Configured(before, myID, id, dir).Some? <==> id != myID && HasDevice(before, id) {
      ConfiguredMeansListed(before, myID, id, dir);
    }
  }

  /** A new limiter is subscribed before it commits a copy of the configuration. If one change overlaps
      with this, the copy may be of either configuration, and the two commits may come in either
      order. The limits are up to date in the end exactly if the limiter's own commit comes
      first, or its copy was taken after the change, or the old configuration does no harm. */
  lemma OvertakenFirstCommit(before: Config, after: Config, copy: Config, ownFirst: bool, myID: DeviceID,
      s: Limits, t: Limits)
    requires copy == before || copy == after
    requires if ownFirst then IsCommit(NO_LIMITS, NO_CONFIG, copy, myID, s) && IsCommit(s, before, after, myID, t)
             else IsCommit(NO_LIMITS, before, after, myID, s) && IsCommit(s, NO_CONFIG, copy, myID, t)
    ensures FollowConfig(t, after, myID, {}) <==> ownFirst || copy == after || DoesNoHarm(before, after, myID)
  {
    hide AreChanged;
    hide AreUpToDate;
    hide KeepsLimits;
    if ownFirst {
      EarlyCommitOfDevices(s.read, t.read, before.devices, after.devices, copy.devices, myID, Recv);
      EarlyCommitOfDevices(s.write, t.write, before.devices, after.devices, copy.devices, myID, Send);
    } else {
      LateCommitOfDevices(s.read, t.read, before.devices, after.devices, copy.devices, myID, Recv);
      LateCommitOfDevices(s.write, t.write, before.devices, after.devices, copy.devices, myID, Send);
    }
  }

  /** It does harm if the change removes a device. */
  lemma RemovedDeviceIsHarmed(d: Device, before: Config, after: Config, myID: DeviceID)
    requires d.id != myID && before.devices == [d] && after.devices == []
    ensures !DoesNoHarm(before, after, myID)
  {
    assert Configured(before.devices, myID, d.id, Recv).Some?;
  }

  /** As long as limiters are asked for configured devices only, there is one for each of these, in
      both directions, and no other. */
  lemma ExactlyTheConfigured(l: Limiter)
    requires l.Valid()
    requires forall id :: id in l.requested ==> id != l.myID && HasDevice(l.cfg.devices, id)
    ensures forall id :: id in l.deviceReadLimiters <==> id != l.myID && HasDevice(l.cfg.devices, id)
    ensures forall id :: id in l.deviceWriteLimiters <==> id != l.myID && HasDevice(l.cfg.devices, id)
  {
    forall id ensures id in l.deviceReadLimiters <==> id != l.myID && HasDevice(l.cfg.devices, id)
      ensures id in l.deviceWriteLimiters <==> id != l.myID && HasDevice(l.cfg.devices, id)
    {
      ConfiguredMeansListed(l.cfg.devices, l.myID, id, Recv);
      ConfiguredMeansListed(l.cfg.devices, l.myID, id, Send);
    }
  }
}
