/** The entities of a configuration as far as their lists of devices and folders go, and the loops
    that clean up these lists (lib/config/config.go, lib/config/folderconfiguration.go). */
module ConfigLists {

  // The bytes of a device ID as a big-endian number, so that comparing IDs is comparing numbers.
  type DeviceID = nat

  const EMPTY_DEVICE_ID: DeviceID := 0

  datatype FolderDevice = FolderDevice(id: DeviceID, introducedBy: DeviceID, encryptionPassword: string)

  datatype Folder = Folder(id: string, path: string, receiveEncrypted: bool, devices: seq<FolderDevice>)

  datatype ObservedFolder = ObservedFolder(time: int, id: string, folderLabel: string)

  datatype ObservedDevice = ObservedDevice(time: int, id: DeviceID, name: string, address: string)

  datatype Device = Device(
    id: DeviceID,
    name: string,
    addresses: seq<string>,
    introducer: bool,
    autoAcceptFolders: bool,
    untrusted: bool,
    ignoredFolders: seq<ObservedFolder>)

  function IdOfDevice(d: Device): DeviceID { d.id }

  function IdOfFolderDevice(d: FolderDevice): DeviceID { d.id }

  ghost function Ids<T(!new)>(s: seq<T>, id: T -> DeviceID): set<DeviceID> {
    set x | x in s :: id(x)
  }

  ghost predicate Distinct<T(!new)>(s: seq<T>, id: T -> DeviceID) {
    forall i, j :: 0 <= i < j < |s| ==> id(s[i]) != id(s[j])
  }

  // ---------- Removing by moving the last element into the gap ----------

  /** Which elements a clean-up removes, given those it has kept so far. */
  datatype Rule = Unknown(known: set<DeviceID>) | Duplicate | DuplicateOrEmpty

  predicate Drops(rule: Rule, id: DeviceID, seen: set<DeviceID>) {
    match rule
    case Unknown(known) => id !in known
    case Duplicate => id in seen
    case DuplicateOrEmpty => id in seen || id == EMPTY_DEVICE_ID
  }

  /** What is left of the elements still to be looked at: an element that is dropped gives way to
      the last one, which is looked at next. */
  ghost function Survivors<T(!new)>(rule: Rule, todo: seq<T>, seen: set<DeviceID>, id: T -> DeviceID): seq<T>
    decreases |todo|
  {
    if todo == [] then []
    else if Drops(rule, id(todo[0]), seen) then
      Survivors(rule, todo[0 := todo[|todo| - 1]][..|todo| - 1], seen, id)
    else [todo[0]] + Survivors(rule, todo[1..], seen + {id(todo[0])}, id)
  }

  lemma GapIsFilled<T>(devices: seq<T>, i: nat, count: nat)
    requires i < count <= |devices|
    ensures var todo, moved := devices[i..count], devices[i := devices[count - 1]];
            && moved[..i] == devices[..i]
            && moved[i..count - 1] == todo[0 := todo[|todo| - 1]][..|todo| - 1]
  {
  }

  lemma OneIsKept<T(!new)>(rule: Rule, devices: seq<T>, seen: set<DeviceID>, id: T -> DeviceID, i: nat, count: nat)
    requires i < count <= |devices| && !Drops(rule, id(devices[i]), seen)
    ensures devices[..i] + Survivors(rule, devices[i..count], seen, id) ==
            devices[..i + 1] + Survivors(rule, devices[i + 1..count], seen + {id(devices[i])}, id)
  {
    var todo := devices[i..count];
    assert todo[1..] == devices[i + 1..count] && devices[..i + 1] == devices[..i] + [todo[0]];
    var rest := Survivors(rule, todo[1..], seen + {id(todo[0])}, id);
    assert Survivors(rule, todo, seen, id) == [todo[0]] + rest;
    assert devices[..i] + ([todo[0]] + rest) == (devices[..i] + [todo[0]]) + rest;
  }

  lemma OneIsDropped<T(!new)>(rule: Rule, devices: seq<T>, seen: set<DeviceID>, id: T -> DeviceID, i: nat, count: nat)
    requires i < count <= |devices| && Drops(rule, id(devices[i]), seen)
    ensures var moved := devices[i := devices[count - 1]];
            && moved[..i] == devices[..i]
            && Survivors(rule, devices[i..count], seen, id) == Survivors(rule, moved[i..count - 1], seen, id)
  {
    GapIsFilled(devices, i, count);
  }

  /** The elements before i are kept, those from i to count are still to be looked at. */
  ghost predicate IsHalfway<T(!new)>(rule: Rule, list: seq<T>, devices: seq<T>, i: nat, count: nat,
      seen: set<DeviceID>, id: T -> DeviceID) {
    && i <= count <= |devices|
    && devices[..i] + Survivors(rule, devices[i..count], seen, id) == Survivors(rule, list, {}, id)
  }

  lemma LookAtOne<T(!new)>(rule: Rule, list: seq<T>, devices: seq<T>, i: nat, count: nat, seen: set<DeviceID>,
      id: T -> DeviceID)
    requires IsHalfway(rule, list, devices, i, count, seen, id) && i < count
    ensures if Drops(rule, id(devices[i]), seen)
            then IsHalfway(rule, list, devices[i := devices[count - 1]], i, count - 1, seen, id)
            else IsHalfway(rule, list, devices, i + 1, count, seen + {id(devices[i])}, id)
  {
    hide Survivors;
    hide Drops;
    if Drops(rule, id(devices[i]), seen) {
      OneIsDropped(rule, devices, seen, id, i, count);
    } else {
      OneIsKept(rule, devices, seen, id, i, count);
    }
  }

  lemma FirstAndLastLook<T(!new)>(rule: Rule, list: seq<T>, devices: seq<T>, count: nat, seen: set<DeviceID>,
      id: T -> DeviceID)
    ensures IsHalfway(rule, list, list, 0, |list|, {}, id)
    ensures IsHalfway(rule, list, devices, count, count, seen, id) ==>
              devices[0..count] == Survivors(rule, list, {}, id)
  {
    assert list[0..|list|] == list;
    assert Survivors(rule, list, {}, id) == [] + Survivors(rule, list, {}, id);
    if count <= |devices| {
      assert devices[count..count] == [] && devices[0..count] == devices[..count] + [];
    }
  }

  /** The common loop of the three methods below. */
  method SwapRemove<T(!new)>(rule: Rule, list: seq<T>, id: T -> DeviceID) returns (r: seq<T>)
    ensures r == Survivors(rule, list, {}, id)
  {
    hide Survivors;
    var devices := list;
    var count, i := |devices|, 0;
    var seenDevices: set<DeviceID> := {};
    FirstAndLastLook(rule, list, list, 0, {}, id);
    while i < count
      invariant 0 <= i <= count <= |devices|
      invariant IsHalfway(rule, list, devices, i, count, seenDevices, id)
      decreases count - i
    {
      hide IsHalfway;
      LookAtOne(rule, list, devices, i, count, seenDevices, id);
      if Drops(rule, id(devices[i]), seenDevices) {
        devices := devices[i := devices[count - 1]];
        count := count - 1;
        continue;
      }
      seenDevices := seenDevices + {id(devices[i])};
      i := i + 1;
    }
    FirstAndLastLook(rule, list, devices, count, seenDevices, id);
    return devices[0..count];
  }

  method EnsureExistingDevices(devices: seq<FolderDevice>, existing: set<DeviceID>) returns (r: seq<FolderDevice>)
    ensures r == Survivors(Unknown(existing), devices, {}, IdOfFolderDevice)
  {
    r := SwapRemove(Unknown(existing), devices, IdOfFolderDevice);
  }

  method EnsureNoDuplicateFolderDevices(devices: seq<FolderDevice>) returns (r: seq<FolderDevice>)
    ensures r == Survivors(Duplicate, devices, {}, IdOfFolderDevice)
  {
    r := SwapRemove(Duplicate, devices, IdOfFolderDevice);
  }

  method EnsureNoDuplicateOrEmptyIDDevices(devices: seq<Device>) returns (r: seq<Device>)
    ensures r == Survivors(DuplicateOrEmpty, devices, {}, IdOfDevice)
  {
    r := SwapRemove(DuplicateOrEmpty, devices, IdOfDevice);
  }

  lemma MovedLast<T(!new)>(todo: seq<T>)
    requires todo != []
    ensures var rest := todo[0 := todo[|todo| - 1]][..|todo| - 1];
            && multiset(rest) + multiset{todo[0]} == multiset(todo)
            && (forall x :: x in todo <==> x in rest || x == todo[0])
  {
    var n := |todo| - 1;
    var rest := todo[0 := todo[n]][..n];
    assert todo == [todo[0]] + todo[1..];
    if n == 0 {
      assert rest == [] && todo == [todo[0]];
    } else {
      assert rest == [todo[n]] + todo[1..n];
      assert todo[1..] == todo[1..n] + [todo[n]];
      assert multiset(todo) == multiset{todo[0]} + multiset(todo[1..n]) + multiset{todo[n]};
      assert forall x :: x in todo <==> x == todo[0] || x in todo[1..n] || x == todo[n];
    }
  }

  /** Whatever the rule, survivors come from the list, each at most as often as it is there. */
  lemma {:induction false} SurvivorsComeFromList<T(!new)>(rule: Rule, todo: seq<T>, seen: set<DeviceID>,
      id: T -> DeviceID)
    ensures multiset(Survivors(rule, todo, seen, id)) <= multiset(todo)
    ensures forall x :: x in Survivors(rule, todo, seen, id) ==> x in todo
    decreases |todo|
  {
    if todo != [] {
      if Drops(rule, id(todo[0]), seen) {
        MovedLast(todo);
        SurvivorsComeFromList(rule, todo[0 := todo[|todo| - 1]][..|todo| - 1], seen, id);
      } else {
        assert todo == [todo[0]] + todo[1..];
        SurvivorsComeFromList(rule, todo[1..], seen + {id(todo[0])}, id);
      }
    }
  }

  /** Of the unknown devices all entries go and of the known ones all stay. */
  lemma {:induction false} KnownSurvive<T(!new)>(known: set<DeviceID>, todo: seq<T>, seen: set<DeviceID>,
      id: T -> DeviceID, x: T)
    ensures multiset(Survivors(Unknown(known), todo, seen, id))[x] == if id(x) in known then multiset(todo)[x] else 0
    decreases |todo|
  {
    if todo != [] {
      if Drops(Unknown(known), id(todo[0]), seen) {
        MovedLast(todo);
        KnownSurvive(known, todo[0 := todo[|todo| - 1]][..|todo| - 1], seen, id, x);
      } else {
        assert todo == [todo[0]] + todo[1..];
        KnownSurvive(known, todo[1..], seen + {id(todo[0])}, id, x);
      }
    }
  }

  /** Exactly one entry for each ID survives, but none for the empty ID where that is to go. */
  lemma {:induction false} OneOfEachSurvives<T(!new)>(rule: Rule, todo: seq<T>, seen: set<DeviceID>, id: T -> DeviceID)
    requires !rule.Unknown?
    ensures Distinct(Survivors(rule, todo, seen, id), id)
    ensures Ids(Survivors(rule, todo, seen, id), id) ==
            Ids(todo, id) - seen - if rule.DuplicateOrEmpty? then {EMPTY_DEVICE_ID} else {}
    decreases |todo|
  {
    if todo != [] {
      if Drops(rule, id(todo[0]), seen) {
        var rest := todo[0 := todo[|todo| - 1]][..|todo| - 1];
        MovedLast(todo);
        OneOfEachSurvives(rule, rest, seen, id);
        assert Ids(todo, id) == Ids(rest, id) + {id(todo[0])};
      } else {
        var seen' := seen + {id(todo[0])};
        var rest := Survivors(rule, todo[1..], seen', id);
        OneOfEachSurvives(rule, todo[1..], seen', id);
        assert todo == [todo[0]] + todo[1..];
        assert Ids(todo, id) == Ids(todo[1..], id) + {id(todo[0])};
        assert Ids([todo[0]] + rest, id) == {id(todo[0])} + Ids(rest, id);
        FirstIsNew(todo[0], rest, id);
      }
    }
  }

  lemma FirstIsNew<T(!new)>(x: T, rest: seq<T>, id: T -> DeviceID)
    requires Distinct(rest, id) && id(x) !in Ids(rest, id)
    ensures Distinct([x] + rest, id)
  {
    var s := [x] + rest;
    forall i, j | 0 <= i < j < |s| ensures id(s[i]) != id(s[j]) {
      assert s[j] == rest[j - 1] && id(rest[j - 1]) in Ids(rest, id);
      assert i > 0 ==> s[i] == rest[i - 1];
    }
  }

  ghost predicate NoneDropped<T(!new)>(rule: Rule, todo: seq<T>, seen: set<DeviceID>, id: T -> DeviceID) {
    match rule
    case Unknown(known) => Ids(todo, id) <= known
    case _ =>
      && Distinct(todo, id) && Ids(todo, id) !! seen
      && (rule.DuplicateOrEmpty? ==> EMPTY_DEVICE_ID !in Ids(todo, id))
  }

  lemma RestIsClean<T(!new)>(rule: Rule, todo: seq<T>, seen: set<DeviceID>, id: T -> DeviceID)
    requires todo != [] && NoneDropped(rule, todo, seen, id)
    ensures !Drops(rule, id(todo[0]), seen) && NoneDropped(rule, todo[1..], seen + {id(todo[0])}, id)
  {
    assert todo[0] in todo && id(todo[0]) in Ids(todo, id);
    var rest := todo[1..];
    assert forall x :: x in rest ==> x in todo;
    forall x | x in rest && !rule.Unknown? ensures id(x) != id(todo[0]) {
      var i :| 0 <= i < |rest| && rest[i] == x;
      assert todo[i + 1] == x;
    }
  }

  /** A clean list is left as it is. */
  lemma {:induction false} CleanListSurvives<T(!new)>(rule: Rule, todo: seq<T>, seen: set<DeviceID>, id: T -> DeviceID)
    requires NoneDropped(rule, todo, seen, id)
    ensures Survivors(rule, todo, seen, id) == todo
    decreases |todo|
  {
    if todo != [] {
      RestIsClean(rule, todo, seen, id);
      hide NoneDropped;
      hide Drops;
      CleanListSurvives(rule, todo[1..], seen + {id(todo[0])}, id);
    }
  }

  // ---------- Removing in place ----------

  ghost function Filter<T(!new)>(s: seq<T>, keep: T -> bool): seq<T> {
    if s == [] then [] else
      Filter(s[..|s| - 1], keep) + if keep(s[|s| - 1]) then [s[|s| - 1]] else []
  }

  lemma {:induction false} FilterKeeps<T(!new)>(s: seq<T>, keep: T -> bool)
    ensures forall x :: x in Filter(s, keep) <==> x in s && keep(x)
    ensures (forall x :: x in s ==> keep(x)) ==> Filter(s, keep) == s
  {
    if s != [] {
      assert s == s[..|s| - 1] + [s[|s| - 1]];
      FilterKeeps(s[..|s| - 1], keep);
    }
  }

  lemma {:induction false} FilterCounts<T(!new)>(s: seq<T>, keep: T -> bool, x: T)
    ensures multiset(Filter(s, keep))[x] == if keep(x) then multiset(s)[x] else 0
  {
    if s != [] {
      assert s == s[..|s| - 1] + [s[|s| - 1]];
      FilterCounts(s[..|s| - 1], keep, x);
    }
  }

  /** Filtering keeps the order. */
  lemma {:induction false} FilterInOrder<T(!new)>(a: seq<T>, b: seq<T>, keep: T -> bool)
    ensures Filter(a + b, keep) == Filter(a, keep) + Filter(b, keep)
  {
    if b == [] {
      assert a + b == a;
    } else {
      assert (a + b)[..|a + b| - 1] == a + b[..|b| - 1];
      FilterInOrder(a, b[..|b| - 1], keep);
    }
  }

  lemma {:induction false} FilterKeepsDistinct<T(!new)>(s: seq<T>, keep: T -> bool, id: T -> DeviceID)
    requires Distinct(s, id)
    ensures Distinct(Filter(s, keep), id)
  {
    if s != [] {
      var init, last := s[..|s| - 1], s[|s| - 1];
      var kept := Filter(init, keep);
      FilterKeepsDistinct(init, keep, id);
      assert Filter(s, keep) == kept + if keep(last) then [last] else [];
      forall k | 0 <= k < |kept| ensures id(kept[k]) != id(last) {
        FilterKeeps(init, keep);
        NotTheLast(s, kept[k], id);
      }
    }
  }

  lemma NotTheLast<T(!new)>(s: seq<T>, x: T, id: T -> DeviceID)
    requires s != [] && Distinct(s, id) && x in s[..|s| - 1]
    ensures id(x) != id(s[|s| - 1])
  {
    var i :| 0 <= i < |s| - 1 && s[..|s| - 1][i] == x;
    assert s[i] == x;
  }

  lemma FilterStep<T(!new)>(s: seq<T>, keep: T -> bool, i: nat)
    requires i < |s|
    ensures Filter(s[..i + 1], keep) == Filter(s[..i], keep) + if keep(s[i]) then [s[i]] else []
  {
    assert s[..i + 1][..i] == s[..i];
  }

  /** The folder is shared in plain text with a device that is not trusted. */
  predicate IsTrustingShare(receiveEncrypted: bool, untrusted: set<DeviceID>, d: FolderDevice) {
    d.encryptionPassword == "" && !receiveEncrypted && d.id in untrusted
  }

  function MayShare(receiveEncrypted: bool, untrusted: set<DeviceID>): FolderDevice -> bool {
    d => !IsTrustingShare(receiveEncrypted, untrusted, d)
  }

  /** The entries are looked up, so all of them have to be in the list of devices. */
  method EnsureNoUntrustedTrustingSharing(
      receiveEncrypted: bool, list: seq<FolderDevice>, existing: map<DeviceID, Device>,
      ghost untrusted: set<DeviceID>)
    returns (devices: seq<FolderDevice>)
    requires forall d :: d in list ==> d.id in existing
    requires forall id :: id in existing ==> (existing[id].untrusted <==> id in untrusted)
    ensures devices == Filter(list, MayShare(receiveEncrypted, untrusted))
  {
    devices := list;
    var i := 0;
    ghost var done := 0;
    while i < |devices|
      invariant 0 <= i <= |devices| && 0 <= done <= |list|
      invariant devices[..i] == Filter(list[..done], MayShare(receiveEncrypted, untrusted))
      invariant devices[i..] == list[done..]
      decreases |list| - done
    {
      var dev := devices[i];
      assert dev == devices[i..][0] && dev == list[done];
      assert devices[i + 1..] == devices[i..][1..];
      FilterStep(list, MayShare(receiveEncrypted, untrusted), done);
      if dev.encryptionPassword != "" || receiveEncrypted {
        i := i + 1;
        done := done + 1;
        continue;
      }
      if existing[dev.id].untrusted {
        devices := devices[..i] + devices[i + 1..];
        i := i - 1;
      }
      i := i + 1;
      done := done + 1;
    }
    assert list[..done] == list;
  }

  method EnsureDevicePresent(devices: seq<FolderDevice>, myID: DeviceID) returns (r: seq<FolderDevice>)
    ensures r == WithMe(devices, myID)
  {
    if myID == EMPTY_DEVICE_ID {
      return devices;
    }
    for i := 0 to |devices|
      invariant forall k :: 0 <= k < i ==> devices[k].id != myID
    {
      if devices[i].id == myID {
        assert devices[i] in devices;
        return devices;
      }
    }
    return devices + [FolderDevice(myID, EMPTY_DEVICE_ID, "")];
  }

  ghost function WithMe(devices: seq<FolderDevice>, myID: DeviceID): seq<FolderDevice> {
    if myID == EMPTY_DEVICE_ID || myID in Ids(devices, IdOfFolderDevice) then devices
    else devices + [FolderDevice(myID, EMPTY_DEVICE_ID, "")]
  }

  method EnsureMyDevice(devices: seq<Device>, myID: DeviceID, hostname: string) returns (r: seq<Device>)
    ensures r == WithMyDevice(devices, myID, hostname)
  {
    if myID == EMPTY_DEVICE_ID {
      return devices;
    }
    for i := 0 to |devices|
      invariant forall k :: 0 <= k < i ==> devices[k].id != myID
    {
      if devices[i].id == myID {
        assert devices[i] in devices;
        return devices;
      }
    }
    return devices + [Device(myID, hostname, [], false, false, false, [])];
  }

  ghost function WithMyDevice(devices: seq<Device>, myID: DeviceID, hostname: string): seq<Device> {
    if myID == EMPTY_DEVICE_ID || myID in Ids(devices, IdOfDevice) then devices
    else devices + [Device(myID, hostname, [], false, false, false, [])]
  }
}
