/** The registry of next dial times (lib/connections/service.go): when each address of each
    device may be dialled again, and how often a device was forced to be redialled lately.

    A call of `RedialDevice` is a grant when it leaves the device without any pending dial
    time, so that all its addresses are dialled at once. */
module RedialRegistry {
  import opened Wrappers

  // Instants and durations are counted in nanoseconds since the Unix epoch.
  type Time = int
  type DeviceID = string

  const SECOND: int := 1_000_000_000
  const MINUTE: int := 60 * SECOND
  const DIAL_COOL_DOWN_INTERVAL: int := 2 * MINUTE
  const DIAL_COOL_DOWN_DELAY: int := 5 * MINUTE
  const DIAL_COOL_DOWN_MAX_ATTEMPTS: nat := 3
  const STD_CONNECTION_LOOP_SLEEP: int := MINUTE
  // The zero value of an instant, midnight of January 1 in year 1.
  const ZERO_TIME: Time := -62_135_596_800 * SECOND

  datatype NextDialDevice = NextDialDevice(
    nextDial: map<string, Time>,
    coolDownIntervalStart: Time,
    attempts: nat)

  type Entries = map<DeviceID, NextDialDevice>

  class NextDialRegistry {
    var entries: Entries

    constructor ()
      ensures entries == map[]
    {
      entries := map[];
    }

    method Get(device: DeviceID, addr: string) returns (next: Time)
      ensures device in entries && addr in entries[device].nextDial ==> next == entries[device].nextDial[addr]
      ensures !(device in entries && addr in entries[device].nextDial) ==> next == ZERO_TIME
      ensures next == DialTime(entries, device, addr)
    {
      next := ZERO_TIME;
      if device in entries && addr in entries[device].nextDial {
        next := entries[device].nextDial[addr];
      }
    }

    /** Exactly the devices that are cooling down are refused, and nothing changes for them.
        For any other device no address has a pending dial time afterwards. */
    method RedialDevice(device: DeviceID, now: Time)
      modifies this
      ensures entries == Apply(old(entries), Redial(device, now))
      ensures if device in old(entries) && old(entries)[device].attempts >= 3 &&
                 now < old(entries)[device].coolDownIntervalStart + 5 * MINUTE
              then entries == old(entries)
              else device in entries ==> entries[device].nextDial == map[]
      ensures forall d :: d != device ==> (d in entries <==> d in old(entries))
      ensures forall d :: d != device && d in entries ==> entries[d] == old(entries)[d]
    {
      if device !in entries {
        entries := entries[device := NextDialDevice(map[], now, 1)];
        return;
      }
      var dev := entries[device];
      if dev.attempts == 0 || now < dev.coolDownIntervalStart + DIAL_COOL_DOWN_INTERVAL {
        if dev.attempts >= DIAL_COOL_DOWN_MAX_ATTEMPTS {
          return;
        }
        if dev.attempts == 0 {
          dev := dev.(coolDownIntervalStart := now);
        }
        dev := dev.(attempts := dev.attempts + 1);
        dev := dev.(nextDial := map[]);
        entries := entries[device := dev];
        return;
      }
      if dev.attempts >= DIAL_COOL_DOWN_MAX_ATTEMPTS && now < dev.coolDownIntervalStart + DIAL_COOL_DOWN_DELAY {
        return;
      }
      entries := entries - {device};
    }

    method Set(device: DeviceID, addr: string, next: Time, ghost now: Time)
      modifies this
      ensures entries == Apply(old(entries), SetNext(device, addr, next, now))
      ensures DialTime(entries, device, addr) == next
      ensures forall d, a :: (d, a) != (device, addr) ==> DialTime(entries, d, a) == DialTime(old(entries), d, a)
      ensures forall d :: Memory(entries, d) == Memory(old(entries), d)
    {
      if device !in entries {
        entries := entries[device := NextDialDevice(map[], ZERO_TIME, 0)];
      }
      var dev := entries[device];
      entries := entries[device := dev.(nextDial := dev.nextDial[addr := next])];
    }

    /** The loop sleeps until the earliest pending dial time, at most the standard interval.
        A device is forgotten when it has no pending dial time and no redial still counts. */
    method SleepDurationAndCleanup(now: Time) returns (sleep: int)
      modifies this
      ensures entries == Apply(old(entries), Cleanup(now))
      ensures forall d, a :: DialTime(entries, d, a) ==
                             if DialTime(old(entries), d, a) < now then ZERO_TIME else DialTime(old(entries), d, a)
      ensures 0 <= sleep <= STD_CONNECTION_LOOP_SLEEP
      ensures forall d, a :: d in entries && a in entries[d].nextDial ==> sleep <= entries[d].nextDial[a] - now
      ensures sleep == STD_CONNECTION_LOOP_SLEEP ||
              exists d, a :: d in entries && a in entries[d].nextDial && sleep == entries[d].nextDial[a] - now
    {
      sleep := STD_CONNECTION_LOOP_SLEEP;
      var todo := entries.Keys;
      ghost var before := entries;
      while todo != {}
        invariant CleanedExcept(before, entries, todo, now)
        invariant SleepsUntilNext(entries, todo, now, sleep)
      {
        var id :| id in todo;
        var dev, forgotten, limit := entries[id], false, sleep;
        dev, forgotten, sleep := CleanupDevice(entries[id], now, limit);
        CleanupStep(before, entries, todo, now, id);
        SleepStep(entries, todo, now, limit, id, dev, forgotten, sleep);
        hide CleanedExcept;
        hide SleepsUntilNext;
        hide Forgotten;
        hide Pending;
        assert entries[id := dev] - {id} == entries - {id};
        // The map of dial times is shared with the registry, the count of attempts is a local copy.
        entries := entries[id := dev];
        if forgotten {
          entries := entries - {id};
        }
        todo := todo - {id};
      }
      CleanupKeepsPending(before, now);
    }
  }

  /** A cleanup drops the dial times that have passed, and no others. */
  lemma CleanupKeepsPending(entries: Entries, now: Time)
    ensures forall d, a :: DialTime(Apply(entries, Cleanup(now)), d, a) ==
                           if DialTime(entries, d, a) < now then ZERO_TIME else DialTime(entries, d, a)
  {
    forall d, a ensures DialTime(Apply(entries, Cleanup(now)), d, a) ==
                        if DialTime(entries, d, a) < now then ZERO_TIME else DialTime(entries, d, a)
    {
      if d in entries && a in entries[d].nextDial && now <= entries[d].nextDial[a] {
        assert a in Pending(entries[d].nextDial, now);
      }
    }
  }

  /** It forgets a device of which all dial times have passed when no redial still counts: one or two count for
      two minutes from the first of them, three for five. What it keeps of the others is not changed. */
  lemma CleanupForgets(entries: Entries, now: Time, d: DeviceID)
    requires d in entries
    ensures var dev, after := entries[d], Apply(entries, Cleanup(now));
            && (d !in after <==>
                  && (forall a :: a in dev.nextDial ==> dev.nextDial[a] < now)
                  && (dev.attempts == 0 ||
                      now > dev.coolDownIntervalStart + if dev.attempts >= 3 then 5 * MINUTE else 2 * MINUTE))
            && (d in after ==> after[d].attempts == dev.attempts &&
                               after[d].coolDownIntervalStart == dev.coolDownIntervalStart)
  {
    if forall a :: a in entries[d].nextDial ==> entries[d].nextDial[a] < now {
      assert Pending(entries[d].nextDial, now) == map[];
    } else {
      var a :| a in entries[d].nextDial && entries[d].nextDial[a] >= now;
      assert a in Pending(entries[d].nextDial, now);
    }
  }

  /** The devices that the loop has dealt with are as a cleanup leaves them, the others as they were. */
  ghost predicate CleanedExcept(before: Entries, entries: Entries, todo: set<DeviceID>, now: Time) {
    && todo <= entries.Keys <= before.Keys
    && (forall d :: d in todo ==> entries[d] == before[d])
    && (forall d :: d in before && d !in todo ==> (d in entries <==> !Forgotten(before[d], now)))
    && (forall d :: d in entries && d !in todo ==>
                        entries[d] == before[d].(nextDial := Pending(before[d].nextDial, now)))
  }

  /** The sleep lasts until the earliest dial time of the devices dealt with, if that is soon enough. */
  ghost predicate SleepsUntilNext(entries: Entries, todo: set<DeviceID>, now: Time, sleep: int) {
    && 0 <= sleep <= STD_CONNECTION_LOOP_SLEEP
    && (forall d, a :: d in entries && d !in todo && a in entries[d].nextDial ==> sleep <= entries[d].nextDial[a] - now)
    && (sleep == STD_CONNECTION_LOOP_SLEEP ||
        exists d, a :: d in entries && d !in todo && a in entries[d].nextDial && sleep == entries[d].nextDial[a] - now)
  }

  lemma CleanupStep(before: Entries, entries: Entries, todo: set<DeviceID>, now: Time, id: DeviceID)
    requires CleanedExcept(before, entries, todo, now) && id in todo
    ensures var dev := entries[id].(nextDial := Pending(entries[id].nextDial, now));
            CleanedExcept(before, if Forgotten(entries[id], now) then entries - {id} else entries[id := dev],
              todo - {id}, now)
  {
    hide Forgotten;
    hide Pending;
  }

  lemma SleepStep(entries: Entries, todo: set<DeviceID>, now: Time, limit: int, id: DeviceID, dev: NextDialDevice,
      forgotten: bool, sleep: int)
    requires SleepsUntilNext(entries, todo, now, limit) && id in todo && 0 <= sleep <= limit
    requires forall a :: a in dev.nextDial ==> sleep <= dev.nextDial[a] - now
    requires sleep == limit || exists a :: a in dev.nextDial && sleep == dev.nextDial[a] - now
    requires forgotten ==> dev.nextDial == map[]
    ensures SleepsUntilNext(if forgotten then entries - {id} else entries[id := dev], todo - {id}, now, sleep)
  {
    var after := if forgotten then entries - {id} else entries[id := dev];
    assert forall d :: d in entries && d !in todo ==> d in after && after[d] == entries[d];
    if sleep == limit < STD_CONNECTION_LOOP_SLEEP {
      var d, a :| d in entries && d !in todo && a in entries[d].nextDial && sleep == entries[d].nextDial[a] - now;
      assert d in after && a in after[d].nextDial;
    } else if sleep < limit {
      var a :| a in dev.nextDial && sleep == dev.nextDial[a] - now;
      assert id in after && a in after[id].nextDial;
    }
  }

  method CleanupDevice(dev: NextDialDevice, now: Time, limit: int) returns (r: NextDialDevice, forgotten: bool,
      sleep: int)
    requires 0 <= limit
    ensures r == dev.(nextDial := Pending(dev.nextDial, now))
    ensures forgotten <==> Forgotten(dev, now)
    ensures 0 <= sleep <= limit
    ensures forall a :: a in r.nextDial ==> sleep <= r.nextDial[a] - now
    ensures sleep == limit || exists a :: a in r.nextDial && sleep == r.nextDial[a] - now
  {
    var nextDial;
    nextDial, sleep := DropExpired(dev.nextDial, now, limit);
    r := dev.(nextDial := nextDial);
    var attempts := dev.attempts;
    if attempts > 0 {
      var interval := DIAL_COOL_DOWN_INTERVAL;
      if attempts >= DIAL_COOL_DOWN_MAX_ATTEMPTS {
        interval := DIAL_COOL_DOWN_DELAY;
      }
      if now > dev.coolDownIntervalStart + interval {
        attempts := 0;
      }
    }
    forgotten := nextDial == map[] && attempts == 0;
  }

  /** The inner loop of the cleanup: drops the addresses not seen in the last passes. */
  method DropExpired(dials: map<string, Time>, now: Time, limit: int) returns (nextDial: map<string, Time>, sleep: int)
    requires 0 <= limit
    ensures nextDial == Pending(dials, now)
    ensures 0 <= sleep <= limit
    ensures forall a :: a in nextDial ==> sleep <= nextDial[a] - now
    ensures sleep == limit || exists a :: a in nextDial && sleep == nextDial[a] - now
  {
    nextDial, sleep := dials, limit;
    var addresses := dials.Keys;
    while addresses != {}
      invariant addresses <= nextDial.Keys <= dials.Keys
      invariant forall a :: a in nextDial ==> nextDial[a] == dials[a]
      invariant forall a :: a in dials && a !in addresses ==> (a in nextDial <==> now <= dials[a])
      invariant 0 <= sleep <= limit
      invariant forall a :: a in nextDial && a !in addresses ==> sleep <= nextDial[a] - now
      invariant sleep == limit || exists a :: a in nextDial && a !in addresses && sleep == nextDial[a] - now
    {
      var address :| address in addresses;
      var next := nextDial[address];
      if next < now {
        nextDial := nextDial - {address};
      } else {
        var cur := next - now;
        if cur < sleep {
          sleep := cur;
        }
      }
      addresses := addresses - {address};
    }
  }

  // ---------- What the methods compute ----------

  ghost function DialTime(entries: Entries, device: DeviceID, addr: string): Time {
    if device in entries && addr in entries[device].nextDial then entries[device].nextDial[addr] else ZERO_TIME
  }

  /** Three counted redials, less than five minutes after the first of them. */
  ghost predicate CoolingDown(entries: Entries, device: DeviceID, now: Time) {
    && device in entries
    && entries[device].attempts >= DIAL_COOL_DOWN_MAX_ATTEMPTS
    && now < entries[device].coolDownIntervalStart + DIAL_COOL_DOWN_DELAY
  }

  /** The start of the interval in which redials are counted and how many there were, if any. */
  ghost function Memory(entries: Entries, device: DeviceID): Option<(Time, nat)> {
    if device in entries && entries[device].attempts > 0
    then Some((entries[device].coolDownIntervalStart, entries[device].attempts))
    else None
  }

  ghost function Pending(nextDial: map<string, Time>, now: Time): map<string, Time> {
    map a | a in nextDial && now <= nextDial[a] :: nextDial[a]
  }

  ghost predicate Forgotten(dev: NextDialDevice, now: Time) {
    && Pending(dev.nextDial, now) == map[]
    && (dev.attempts == 0 || now > dev.coolDownIntervalStart +
                                   if dev.attempts >= DIAL_COOL_DOWN_MAX_ATTEMPTS
                                   then DIAL_COOL_DOWN_DELAY else DIAL_COOL_DOWN_INTERVAL)
  }

  /** A call together with the moment it is made. */
  datatype Op =
    | Redial(device: DeviceID, now: Time)
    | SetNext(device: DeviceID, addr: string, next: Time, now: Time)
    | Cleanup(now: Time)

  ghost function Apply(entries: Entries, op: Op): Entries {
    match op
    case Redial(device, now) =>
      if device !in entries then
        entries[device := NextDialDevice(map[], now, 1)]
      else if CoolingDown(entries, device, now) then
        entries
      else
        var dev := entries[device];
        if dev.attempts == 0 then
          entries[device := NextDialDevice(map[], now, 1)]
        else if now < dev.coolDownIntervalStart + DIAL_COOL_DOWN_INTERVAL then
          entries[device := NextDialDevice(map[], dev.coolDownIntervalStart, dev.attempts + 1)]
        else
          entries - {device}
    case SetNext(device, addr, next, _) =>
      var dev := if device in entries then entries[device] else NextDialDevice(map[], ZERO_TIME, 0);
      entries[device := dev.(nextDial := dev.nextDial[addr := next])]
    case Cleanup(now) =>
      map d | d in entries && !Forgotten(entries[d], now) :: entries[d].(nextDial := Pending(entries[d].nextDial, now))
  }

  // ---------- Runs ----------

  ghost predicate ClockNeverGoesBack(ops: seq<Op>) {
    forall i, j :: 0 <= i < j < |ops| ==> ops[i].now <= ops[j].now
  }

  ghost function Run(ops: seq<Op>): Entries {
    if ops == [] then map[] else Apply(Run(ops[..|ops| - 1]), ops[|ops| - 1])
  }

  /** A forced redial that was granted, and the start of the interval it was counted in; the
      grant that removes an expired entry is not counted in any interval. */
  datatype Grant = Grant(at: Time, counted: Option<Time>)

  ghost function Granted(entries: Entries, op: Op, device: DeviceID): seq<Grant> {
    if op.Redial? && op.device == device && !CoolingDown(entries, device, op.now) then
      var memory := Memory(Apply(entries, op), device);
      [Grant(op.now, if memory.Some? then Some(memory.value.0) else None)]
    else []
  }

  ghost function Grants(ops: seq<Op>, device: DeviceID): seq<Grant> {
    if ops == [] then [] else
      var prefix := ops[..|ops| - 1];
      Grants(prefix, device) + Granted(Run(prefix), ops[|ops| - 1], device)
  }

  ghost function CountIn(grants: seq<Grant>, from: Time, to: Time): nat {
    if grants == [] then 0 else
      var g := grants[|grants| - 1];
      CountIn(grants[..|grants| - 1], from, to) + if from <= g.at < to then 1 else 0
  }

  ghost function CountStart(grants: seq<Grant>, s: Time): nat {
    if grants == [] then 0 else
      var g := grants[|grants| - 1];
      CountStart(grants[..|grants| - 1], s) + if g.counted == Some(s) then 1 else 0
  }

  /** What a granted redial does to the memory of a device. */
  ghost function AfterGrant(memory: Option<(Time, nat)>, now: Time): Option<(Time, nat)> {
    match memory
    case None => Some((now, 1))
    case Some((s, n)) => if now < s + DIAL_COOL_DOWN_INTERVAL then Some((s, n + 1)) else None
  }

  /** How long an interval with n counted redials is remembered. */
  ghost function MemoryTime(n: nat): int {
    if n >= DIAL_COOL_DOWN_MAX_ATTEMPTS then DIAL_COOL_DOWN_DELAY else DIAL_COOL_DOWN_INTERVAL
  }

  /** Only a grant adds to the memory of a device, and without a grant it is lost only to a
      cleanup that comes after its time: `Set` and refused redials leave it alone. */
  lemma MemoryStep(entries: Entries, op: Op, device: DeviceID)
    ensures var m, m' := Memory(entries, device), Memory(Apply(entries, op), device);
            if Granted(entries, op, device) != [] then
              && op.Redial?
              && m' == AfterGrant(m, op.now)
              && (m.Some? ==> m.value.1 < DIAL_COOL_DOWN_MAX_ATTEMPTS || op.now >= m.value.0 + DIAL_COOL_DOWN_DELAY)
            else
              m' == m || (op.Cleanup? && m.Some? && m'.None? && op.now > m.value.0 + MemoryTime(m.value.1))
  {
  }

  lemma GrantIsCounted(entries: Entries, op: Op, device: DeviceID)
    ensures var granted, m' := Granted(entries, op, device), Memory(Apply(entries, op), device);
            granted == [] || granted == [Grant(op.now, if m'.Some? then Some(m'.value.0) else None)]
  {
    hide Memory;
    hide Apply;
  }

  lemma GrantsOfStep(ops: seq<Op>, op: Op, device: DeviceID)
    ensures Run(ops + [op]) == Apply(Run(ops), op)
    ensures Grants(ops + [op], device) == Grants(ops, device) + Granted(Run(ops), op, device)
    ensures forall from, to :: CountIn(Grants(ops + [op], device), from, to) ==
                               CountIn(Grants(ops, device), from, to) +
                               if Granted(Run(ops), op, device) != [] && from <= op.now < to then 1 else 0
    ensures forall s :: CountStart(Grants(ops + [op], device), s) ==
                        CountStart(Grants(ops, device), s) +
                        if Granted(Run(ops), op, device) != [] && Granted(Run(ops), op, device)[0].counted == Some(s)
                          then 1 else 0
  {
    assert (ops + [op])[..|ops|] == ops;
    var granted := Granted(Run(ops), op, device);
    if granted != [] {
      assert Grants(ops + [op], device)[..|Grants(ops, device)|] == Grants(ops, device);
    } else {
      assert Grants(ops + [op], device) == Grants(ops, device);
    }
  }

  /** What the registry remembers about an interval s once redials were counted in it. */
  ghost predicate RemembersInterval(ops: seq<Op>, device: DeviceID, s: Time) {
    IsRemembered(CountStart(Grants(ops, device), s), Memory(Run(ops), device), s,
                 if ops == [] then None else Some(ops[|ops| - 1].now))
  }

  ghost predicate IsRemembered(counted: nat, memory: Option<(Time, nat)>, s: Time, last: Option<Time>) {
    if memory.Some? && memory.value.0 == s then
      counted == memory.value.1 <= DIAL_COOL_DOWN_MAX_ATTEMPTS
    else
      counted == 0 || (counted <= DIAL_COOL_DOWN_MAX_ATTEMPTS && last.Some? && last.value >= s + MemoryTime(counted))
  }

  /** A grant counts in the interval that is remembered after it. */
  lemma GrantIsRemembered(counted: nat, memory: Option<(Time, nat)>, s: Time, last: Option<Time>, now: Time)
    requires IsRemembered(counted, memory, s, last) && (last.Some? ==> last.value <= now)
    requires memory.Some? ==>
        memory.value.1 < DIAL_COOL_DOWN_MAX_ATTEMPTS || now >= memory.value.0 + DIAL_COOL_DOWN_DELAY
    ensures var m' := AfterGrant(memory, now);
            IsRemembered(counted + if m'.Some? && m'.value.0 == s then 1 else 0, m', s, Some(now))
  {
  }

  lemma StaysRemembered(counted: nat, memory: Option<(Time, nat)>, s: Time, last: Option<Time>, now: Time,
      m': Option<(Time, nat)>)
    requires IsRemembered(counted, memory, s, last) && (last.Some? ==> last.value <= now)
    requires m' == memory || (memory.Some? && m'.None? && now > memory.value.0 + MemoryTime(memory.value.1))
    ensures IsRemembered(counted, m', s, Some(now))
  {
  }

  lemma {:induction false} IntervalIsRemembered(ops: seq<Op>, device: DeviceID, s: Time)
    requires ClockNeverGoesBack(ops)
    ensures RemembersInterval(ops, device, s)
  {
    hide Apply;
    hide Run;
    hide Grants;
    hide Granted;
    hide Memory;
    hide CountStart;
    hide CountIn;
    hide IsRemembered;
    hide AfterGrant;
    hide MemoryTime;
    hide ClockNeverGoesBack;
    if ops == [] {
      NothingGranted(device, s);
    } else {
      var prefix, op := ops[..|ops| - 1], ops[|ops| - 1];
      assert ops == prefix + [op];
      ClockBefore(ops);
      IntervalIsRemembered(prefix, device, s);
      GrantsOfStep(prefix, op, device);
      MemoryStep(Run(prefix), op, device);
      GrantIsCounted(Run(prefix), op, device);
      var counted, memory := CountStart(Grants(prefix, device), s), Memory(Run(prefix), device);
      var last := if prefix == [] then None else Some(prefix[|prefix| - 1].now);
      if Granted(Run(prefix), op, device) != [] {
        GrantIsRemembered(counted, memory, s, last, op.now);
      } else {
        StaysRemembered(counted, memory, s, last, op.now, Memory(Run(ops), device));
      }
    }
  }

  lemma ClockBefore(ops: seq<Op>)
    requires ClockNeverGoesBack(ops) && ops != []
    ensures ClockNeverGoesBack(ops[..|ops| - 1])
    ensures |ops| > 1 ==> ops[..|ops| - 1][|ops| - 2].now <= ops[|ops| - 1].now
  {
  }

  lemma NothingGranted(device: DeviceID, s: Time)
    ensures IsRemembered(CountStart(Grants([], device), s), Memory(Run([]), device), s, None)
  {
  }

  lemma CoolingDownIsRefused(prefix: seq<Op>, op: Op, device: DeviceID, s: Time)
    requires ClockNeverGoesBack(prefix) && (prefix != [] ==> prefix[|prefix| - 1].now <= op.now)
    requires CountStart(Grants(prefix, device), s) >= DIAL_COOL_DOWN_MAX_ATTEMPTS
    requires Granted(Run(prefix), op, device) != []
    ensures op.now >= s + DIAL_COOL_DOWN_DELAY
  {
    hide Run;
    hide Grants;
    hide Granted;
    hide CountStart;
    hide Memory;
    hide Apply;
    hide ClockNeverGoesBack;
    IntervalIsRemembered(prefix, device, s);
    MemoryStep(Run(prefix), op, device);
  }

  /** A device whose third redial was counted in the interval that began at s is not redialled
      again by force before the cool-down delay has passed since s, whatever calls of `Set`
      and cleanups come between. */
  lemma {:induction false} CoolDownIsKept(ops: seq<Op>, device: DeviceID, s: Time, k: nat)
    requires ClockNeverGoesBack(ops)
    requires k < |Grants(ops, device)|
    requires CountStart(Grants(ops, device)[..k], s) >= DIAL_COOL_DOWN_MAX_ATTEMPTS
    ensures Grants(ops, device)[k].at >= s + DIAL_COOL_DOWN_DELAY
  {
    var prefix, op := ops[..|ops| - 1], ops[|ops| - 1];
    if k < |Grants(prefix, device)| {
      assert Grants(ops, device)[..k] == Grants(prefix, device)[..k];
      CoolDownIsKept(prefix, device, s, k);
    } else {
      var granted := Granted(Run(prefix), op, device);
      assert Grants(ops, device) == Grants(prefix, device) + granted;
      assert Grants(ops, device)[..k] == Grants(prefix, device) && granted != [] && granted[0].at == op.now;
      CoolingDownIsRefused(prefix, op, device, s);
      hide Run;
      hide Granted;
    }
  }

  /** What is remembered of an interval decides whether a device is cooling down. */
  lemma CoolingMeans(entries: Entries, device: DeviceID, now: Time, counted: nat, s: Time, last: Option<Time>)
    requires IsRemembered(counted, Memory(entries, device), s, last) && (last.Some? ==> last.value <= now)
    ensures counted >= 3 && now < s + 5 * MINUTE ==> CoolingDown(entries, device, now)
    ensures CoolingDown(entries, device, now) && Memory(entries, device).value.0 == s ==>
              counted >= 3 && now < s + 5 * MINUTE
  {
  }

  /** A redial is refused for no other reason than that: in every run, exactly while less than five minutes
      have passed since the start of an interval in which three redials were counted. */
  lemma RefusedMeans(ops: seq<Op>, device: DeviceID, now: Time)
    requires ClockNeverGoesBack(ops + [Redial(device, now)])
    ensures Granted(Run(ops), Redial(device, now), device) == [] <==>
            exists s :: CountStart(Grants(ops, device), s) >= 3 && now < s + 5 * MINUTE
  {
    hide *;
    LastBefore(ops, Redial(device, now));
    GrantedUnlessCooling(Run(ops), device, now);
    var last := if ops == [] then None else Some(ops[|ops| - 1].now);
    if CoolingDown(Run(ops), device, now) {
      CoolingIsRemembered(Run(ops), device, now);
      var s := Memory(Run(ops), device).value.0;
      RefusedStep(ops, device, now, s, last);
      assert CountStart(Grants(ops, device), s) >= 3 && now < s + 5 * MINUTE;
    } else if s :| CountStart(Grants(ops, device), s) >= 3 && now < s + 5 * MINUTE {
      RefusedStep(ops, device, now, s, last);
      assert false;
    }
  }

  lemma LastBefore(ops: seq<Op>, op: Op)
    requires ClockNeverGoesBack(ops + [op])
    ensures ClockNeverGoesBack(ops) && (ops != [] ==> ops[|ops| - 1].now <= op.now)
  {
    assert (ops + [op])[..|ops + [op]| - 1] == ops;
    ClockBefore(ops + [op]);
  }

  lemma GrantedUnlessCooling(entries: Entries, device: DeviceID, now: Time)
    ensures Granted(entries, Redial(device, now), device) == [] <==> CoolingDown(entries, device, now)
  {
    hide Apply;
    hide Memory;
  }

  lemma CoolingIsRemembered(entries: Entries, device: DeviceID, now: Time)
    requires CoolingDown(entries, device, now)
    ensures Memory(entries, device).Some?
  {
  }

  lemma RefusedStep(ops: seq<Op>, device: DeviceID, now: Time, s: Time, last: Option<Time>)
    requires ClockNeverGoesBack(ops) && last == (if ops == [] then None else Some(ops[|ops| - 1].now))
    requires last.Some? ==> last.value <= now
    ensures CountStart(Grants(ops, device), s) >= 3 && now < s + 5 * MINUTE ==> CoolingDown(Run(ops), device, now)
    ensures var memory := Memory(Run(ops), device);
            CoolingDown(Run(ops), device, now) && memory.Some? && memory.value.0 == s ==>
              CountStart(Grants(ops, device), s) >= 3 && now < s + 5 * MINUTE
  {
    hide IsRemembered;
    hide CountStart;
    hide Grants;
    hide Run;
    IntervalIsRemembered(ops, device, s);
    CoolingMeans(Run(ops), device, now, CountStart(Grants(ops, device), s), s, last);
  }

  /** How many grants the window [w, w + 2 min) can hold so far, given what is remembered. */
  ghost predicate WindowBudget(ops: seq<Op>, device: DeviceID, w: Time) {
    var c := CountIn(Grants(ops, device), w, w + DIAL_COOL_DOWN_INTERVAL);
    var memory := Memory(Run(ops), device);
    && c <= 5
    && (c > 0 ==> ops != [] && w <= ops[|ops| - 1].now)
    && match memory
       case None => c <= 2 || ops[|ops| - 1].now >= w + DIAL_COOL_DOWN_INTERVAL
       case Some((s, n)) =>
         && 1 <= n <= DIAL_COOL_DOWN_MAX_ATTEMPTS
         && ops != [] && s <= ops[|ops| - 1].now
         && (s < w ==> c <= n - 1 && (c > 0 ==> s + DIAL_COOL_DOWN_INTERVAL > w))
         && (w <= s < w + DIAL_COOL_DOWN_INTERVAL ==> c <= 2 + n)
  }

  lemma {:induction false} WindowBudgetHolds(ops: seq<Op>, device: DeviceID, w: Time)
    requires ClockNeverGoesBack(ops)
    ensures WindowBudget(ops, device, w)
  {
    if ops != [] {
      var prefix, op := ops[..|ops| - 1], ops[|ops| - 1];
      assert ops == prefix + [op];
      WindowBudgetHolds(prefix, device, w);
      GrantsOfStep(prefix, op, device);
      MemoryStep(Run(prefix), op, device);
      hide Apply;
      hide Run;
      hide Grants;
      hide Granted;
      hide Memory;
      hide CountIn;
    }
  }

  /** Any half-open window of two minutes holds at most five forced redials of a device. */
  lemma AtMostFiveRedialsInTwoMinutes(ops: seq<Op>, device: DeviceID, w: Time)
    requires ClockNeverGoesBack(ops)
    ensures CountIn(Grants(ops, device), w, w + DIAL_COOL_DOWN_INTERVAL) <= 5
  {
    WindowBudgetHolds(ops, device, w);
  }

  /** Five are possible: the second redial of an interval comes just before its end, the next one
      forgets the interval, and three more are counted in a new one. */
  lemma FiveAreReached(device: DeviceID)
    ensures var w := DIAL_COOL_DOWN_INTERVAL - 1;
            var ops := LateRedials(device, 5);
            ClockNeverGoesBack(ops) && CountIn(Grants(ops, device), w, w + DIAL_COOL_DOWN_INTERVAL) == 5
  {
    LateRedialsAre(device, 5);
  }

  ghost function LateTime(n: nat): Time {
    if n == 0 then 0 else if n == 1 then DIAL_COOL_DOWN_INTERVAL - 1 else DIAL_COOL_DOWN_INTERVAL
  }

  ghost function LateRedials(device: DeviceID, n: nat): seq<Op> {
    (if n == 0 then [] else LateRedials(device, n - 1)) + [Redial(device, LateTime(n))]
  }

  ghost function LateEntries(device: DeviceID, n: nat): Entries {
    if n < 2 then map[device := NextDialDevice(map[], 0, n + 1)]
    else if n == 2 then map[]
    else map[device := NextDialDevice(map[], DIAL_COOL_DOWN_INTERVAL, n - 2)]
  }

  lemma OneLateRedial(device: DeviceID, n: nat)
    requires n <= 5
    ensures var before := if n == 0 then map[] else LateEntries(device, n - 1);
            var op := Redial(device, LateTime(n));
            Apply(before, op) == LateEntries(device, n) && Granted(before, op, device) != []
  {
  }

  /** One more redial of these, after the given calls. */
  lemma OneMoreLate(ops: seq<Op>, device: DeviceID, n: nat)
    requires n <= 5 && Run(ops) == if n == 0 then map[] else LateEntries(device, n - 1)
    ensures var w, longer := LateTime(1), ops + [Redial(device, LateTime(n))];
            && Run(longer) == LateEntries(device, n)
            && CountIn(Grants(longer, device), w, w + DIAL_COOL_DOWN_INTERVAL) ==
               CountIn(Grants(ops, device), w, w + DIAL_COOL_DOWN_INTERVAL) + if n == 0 then 0 else 1
  {
    OneLateRedial(device, n);
    GrantsOfStep(ops, Redial(device, LateTime(n)), device);
    hide Apply;
    hide Granted;
    hide Grants;
    hide CountIn;
    hide Run;
    hide LateEntries;
  }

  lemma {:induction false} LateRedialsAre(device: DeviceID, n: nat)
    requires n <= 5
    ensures var w, ops := LateTime(1), LateRedials(device, n);
            && CountIn(Grants(ops, device), w, w + DIAL_COOL_DOWN_INTERVAL) == n
            && Run(ops) == LateEntries(device, n)
            && |ops| == n + 1 && forall k :: 0 <= k <= n ==> ops[k].now == LateTime(k)
  {
    hide Grants;
    hide CountIn;
    hide Run;
    hide LateEntries;
    if n == 0 {
      NothingYet(device, LateTime(1));
      OneMoreLate([], device, 0);
      assert [] + [Redial(device, LateTime(0))] == LateRedials(device, 0);
    } else {
      LateRedialsAre(device, n - 1);
      OneMoreLate(LateRedials(device, n - 1), device, n);
      hide LateTime;
    }
  }

  lemma NothingYet(device: DeviceID, w: Time)
    ensures Run([]) == map[] && CountIn(Grants([], device), w, w + DIAL_COOL_DOWN_INTERVAL) == 0
  {
  }
}
