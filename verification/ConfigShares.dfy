/** The list of devices and the devices that each folder is shared with, in their normal forms
    (lib/config/config.go, lib/config/folderconfiguration.go). */
module ConfigShares {
  import opened ConfigLists
  import Sorting

  // ---------- Orders ----------

  predicate DeviceLe(a: Device, b: Device) { a.id <= b.id }

  predicate FolderDeviceLe(a: FolderDevice, b: FolderDevice) { a.id <= b.id }

  // ---------- The list of devices ----------

  ghost function DevicesLeft(devices: seq<Device>): seq<Device> {
    Survivors(DuplicateOrEmpty, devices, {}, IdOfDevice)
  }

  /** Strictly sorted, hence free from duplicates, and without the empty ID. */
  ghost predicate IsDeviceList(devices: seq<Device>) {
    && Sorting.StrictlySorted(devices, DeviceLe)
    && EMPTY_DEVICE_ID !in Ids(devices, IdOfDevice)
  }

  ghost predicate IsIndex(existing: map<DeviceID, Device>, devices: seq<Device>) {
    && (forall d :: d in devices ==> d.id in existing && existing[d.id] == d)
    && (forall id :: id in existing ==> existing[id] in devices && existing[id].id == id)
  }

  method PrepareDeviceList(devices: seq<Device>) returns (r: seq<Device>, existing: map<DeviceID, Device>)
    ensures multiset(r) == multiset(DevicesLeft(devices))
    ensures IsDeviceList(r) && Ids(r, IdOfDevice) == Ids(devices, IdOfDevice) - {EMPTY_DEVICE_ID}
    ensures IsIndex(existing, r)
  {
    r := EnsureNoDuplicateOrEmptyIDDevices(devices);
    OneOfEachSurvives(DuplicateOrEmpty, devices, {}, IdOfDevice);
    ghost var left := r;
    r := Sorting.SortFunc(r, DeviceLe);
    DistinctSortsStrictly(left, r);
    existing := map[];
    for i := 0 to |r|
      invariant forall k :: 0 <= k < i ==> r[k].id in existing && existing[r[k].id] == r[k]
      invariant forall id :: id in existing ==> existing[id] in r && existing[id].id == id
    {
      existing := existing[r[i].id := r[i]];
    }
  }

  lemma DistinctSortsStrictly(left: seq<Device>, r: seq<Device>)
    requires Distinct(left, IdOfDevice) && multiset(left) == multiset(r) && Sorting.Sorted(r, DeviceLe)
    ensures Sorting.StrictlySorted(r, DeviceLe) && Ids(r, IdOfDevice) == Ids(left, IdOfDevice)
  {
    Sorting.SameElements(left, r);
    PermutationIsDistinct(left, r, IdOfDevice);
  }

  lemma PermutationIsDistinct<T(!new)>(a: seq<T>, b: seq<T>, id: T -> DeviceID)
    requires Distinct(a, id) && multiset(a) == multiset(b)
    ensures Distinct(b, id)
  {
    Sorting.SameElements(a, b);
    forall i, j | 0 <= i < j < |b| ensures id(b[i]) != id(b[j]) {
      assert b[i] in a && b[j] in a;
      var k :| 0 <= k < |a| && a[k] == b[i];
      var l :| 0 <= l < |a| && a[l] == b[j];
      if k == l {
        Sorting.TwiceMeansTwo(b, i, j);
        DistinctMeansOnce(a, k, id);
      } else {
        assert id(a[if k < l then k else l]) != id(a[if k < l then l else k]);
      }
    }
  }

  lemma DistinctMeansOnce<T(!new)>(a: seq<T>, k: nat, id: T -> DeviceID)
    requires Distinct(a, id) && k < |a|
    ensures multiset(a)[a[k]] == 1
  {
    Sorting.OccursOnce(a, k);
  }

  // ---------- The devices of a folder ----------

  ghost function Untrusted(devices: seq<Device>): set<DeviceID> {
    set d | d in devices && d.untrusted :: d.id
  }

  /** The known devices of a folder, one entry for each. */
  ghost function KnownOnce(devices: seq<FolderDevice>, known: set<DeviceID>): seq<FolderDevice> {
    Survivors(Duplicate, Survivors(Unknown(known), devices, {}, IdOfFolderDevice), {}, IdOfFolderDevice)
  }

  /** The devices that remain, before they are sorted. */
  ghost function SharesLeft(f: Folder, myID: DeviceID, known: set<DeviceID>,
      untrusted: set<DeviceID>): seq<FolderDevice> {
    Filter(WithMe(KnownOnce(f.devices, known), myID), MayShare(f.receiveEncrypted, untrusted))
  }

  ghost predicate IsPreparedFolder(f: Folder, r: Folder, myID: DeviceID, known: set<DeviceID>,
      untrusted: set<DeviceID>) {
    && r == f.(devices := r.devices)
    && multiset(r.devices) == multiset(SharesLeft(f, myID, known, untrusted))
    && Sorting.StrictlySorted(r.devices, FolderDeviceLe)
  }

  ghost predicate HasId(s: seq<FolderDevice>, id: DeviceID) {
    exists d :: d in s && d.id == id
  }

  lemma KnownAreLeft(devices: seq<FolderDevice>, known: set<DeviceID>, d: FolderDevice)
    ensures d in Survivors(Unknown(known), devices, {}, IdOfFolderDevice) <==> d in devices && d.id in known
  {
    KnownSurvive(known, devices, {}, IdOfFolderDevice, d);
    assert d in devices <==> multiset(devices)[d] > 0;
    hide Survivors;
    var existing := Survivors(Unknown(known), devices, {}, IdOfFolderDevice);
    assert d in existing <==> multiset(existing)[d] > 0;
  }

  lemma KnownOnceIs(devices: seq<FolderDevice>, known: set<DeviceID>)
    ensures var r := KnownOnce(devices, known);
            && Distinct(r, IdOfFolderDevice)
            && (forall d :: d in r ==> d in devices && d.id in known)
            && (forall d :: d in devices && d.id in known ==> HasId(r, d.id))
  {
    var existing := Survivors(Unknown(known), devices, {}, IdOfFolderDevice);
    var r := KnownOnce(devices, known);
    SurvivorsComeFromList(Duplicate, existing, {}, IdOfFolderDevice);
    OneOfEachSurvives(Duplicate, existing, {}, IdOfFolderDevice);
    hide Survivors;
    assert Ids(r, IdOfFolderDevice) == Ids(existing, IdOfFolderDevice);
    hide KnownOnce;
    forall d | d in r ensures d in devices && d.id in known {
      KnownAreLeft(devices, known, d);
    }
    forall d | d in devices && d.id in known ensures HasId(r, d.id) {
      KnownAreLeft(devices, known, d);
      assert IdOfFolderDevice(d) in Ids(existing, IdOfFolderDevice);
    }
  }

  lemma WithMeIs(list: seq<FolderDevice>, myID: DeviceID)
    requires Distinct(list, IdOfFolderDevice)
    ensures var r := WithMe(list, myID);
            && Distinct(r, IdOfFolderDevice)
            && (forall d :: d in r ==>
                      d in list || (myID != EMPTY_DEVICE_ID && d == FolderDevice(myID, EMPTY_DEVICE_ID, "")))
            && (forall d :: d in list ==> d in r)
            && (myID != EMPTY_DEVICE_ID ==> HasId(r, myID))
  {
    var r, me := WithMe(list, myID), FolderDevice(myID, EMPTY_DEVICE_ID, "");
    if r != list {
      assert r == list + [me];
      forall i | 0 <= i < |list| ensures list[i].id != myID {
        assert IdOfFolderDevice(list[i]) in Ids(list, IdOfFolderDevice);
      }
      assert me in r;
    } else if myID != EMPTY_DEVICE_ID && myID in Ids(list, IdOfFolderDevice) {
      var e :| e in list && IdOfFolderDevice(e) == myID;
    }
  }

  /** The devices a folder was shared with, and our own. */
  ghost function Offered(f: Folder, myID: DeviceID): seq<FolderDevice> {
    f.devices + if myID == EMPTY_DEVICE_ID then [] else [FolderDevice(myID, EMPTY_DEVICE_ID, "")]
  }

  ghost predicate HasTrustingShare(s: seq<FolderDevice>, receiveEncrypted: bool, untrusted: set<DeviceID>,
      id: DeviceID) {
    exists d :: d in s && d.id == id && IsTrustingShare(receiveEncrypted, untrusted, d)
  }

  /** The devices of a prepared folder come from the folder, but for our own; all are in the list
      of devices, and none is untrusted unless what it gets is encrypted. No device in that list is
      lost unless the folder was shared with it in plain text although it is untrusted. */
  ghost predicate IsShareList(f: Folder, r: seq<FolderDevice>, myID: DeviceID, known: set<DeviceID>,
      untrusted: set<DeviceID>) {
    && Sorting.StrictlySorted(r, FolderDeviceLe)
    && (forall d :: d in r ==> d.id in known && !IsTrustingShare(f.receiveEncrypted, untrusted, d))
    && (forall d :: d in r ==> d in Offered(f, myID))
    && (forall id :: HasId(Offered(f, myID), id) && id in known && !HasId(r, id) ==>
          HasTrustingShare(Offered(f, myID), f.receiveEncrypted, untrusted, id))
  }

  lemma PreparedMembers(f: Folder, r: Folder, myID: DeviceID, known: set<DeviceID>, untrusted: set<DeviceID>)
    requires IsPreparedFolder(f, r, myID, known, untrusted)
    ensures forall d :: d in r.devices <==>
              d in WithMe(KnownOnce(f.devices, known), myID) && !IsTrustingShare(f.receiveEncrypted, untrusted, d)
  {
    hide KnownOnce;
    hide WithMe;
    var list := WithMe(KnownOnce(f.devices, known), myID);
    FilterKeeps(list, MayShare(f.receiveEncrypted, untrusted));
    Sorting.SameElements(r.devices, SharesLeft(f, myID, known, untrusted));
  }

  lemma OnlyTrustingSharesGo(
      offered: seq<FolderDevice>, list: seq<FolderDevice>, r: seq<FolderDevice>,
      receiveEncrypted: bool, untrusted: set<DeviceID>, id: DeviceID)
    requires forall d :: d in list ==> d in offered
    requires forall d :: d in r <==> d in list && !IsTrustingShare(receiveEncrypted, untrusted, d)
    requires HasId(list, id) && !HasId(r, id)
    ensures HasTrustingShare(offered, receiveEncrypted, untrusted, id)
  {
    var d :| d in list && d.id == id;
    assert d !in r;
  }

  lemma OfferedAreListed(f: Folder, myID: DeviceID, known: set<DeviceID>, id: DeviceID)
    requires HasId(Offered(f, myID), id) && id in known
    ensures HasId(WithMe(KnownOnce(f.devices, known), myID), id)
  {
    KnownOnceIs(f.devices, known);
    var once := KnownOnce(f.devices, known);
    WithMeIs(once, myID);
    hide KnownOnce;
    hide WithMe;
    var d :| d in Offered(f, myID) && d.id == id;
    if d in f.devices {
      var e :| e in once && e.id == id;
      assert e in WithMe(once, myID);
    }
  }

  lemma ListedAreOffered(f: Folder, myID: DeviceID, known: set<DeviceID>)
    requires myID == EMPTY_DEVICE_ID || myID in known
    ensures forall d :: d in WithMe(KnownOnce(f.devices, known), myID) ==> d in Offered(f, myID) && d.id in known
  {
    KnownOnceIs(f.devices, known);
    WithMeIs(KnownOnce(f.devices, known), myID);
    hide KnownOnce;
    hide WithMe;
  }

  lemma PreparedIsShareList(f: Folder, r: Folder, myID: DeviceID, known: set<DeviceID>, untrusted: set<DeviceID>)
    requires IsPreparedFolder(f, r, myID, known, untrusted)
    requires myID == EMPTY_DEVICE_ID || myID in known
    ensures IsShareList(f, r.devices, myID, known, untrusted)
  {
    var list := WithMe(KnownOnce(f.devices, known), myID);
    PreparedMembers(f, r, myID, known, untrusted);
    ListedAreOffered(f, myID, known);
    hide KnownOnce;
    hide WithMe;
    hide SharesLeft;
    hide Offered;
    forall id | HasId(Offered(f, myID), id) && id in known && !HasId(r.devices, id)
      ensures HasTrustingShare(Offered(f, myID), f.receiveEncrypted, untrusted, id)
    {
      OfferedAreListed(f, myID, known, id);
      OnlyTrustingSharesGo(Offered(f, myID), list, r.devices, f.receiveEncrypted, untrusted, id);
    }
  }

  lemma SortedIsDistinct(s: seq<FolderDevice>)
    requires Sorting.StrictlySorted(s, FolderDeviceLe)
    ensures Distinct(s, IdOfFolderDevice)
  {
    forall i, j | 0 <= i < j < |s| ensures s[i].id != s[j].id {
      assert FolderDeviceLe(s[i], s[j]) && !FolderDeviceLe(s[j], s[i]);
    }
  }

  lemma ShareListIsKnown(s: seq<FolderDevice>, known: set<DeviceID>)
    requires Sorting.StrictlySorted(s, FolderDeviceLe) && forall d :: d in s ==> d.id in known
    ensures KnownOnce(s, known) == s
  {
    SortedIsDistinct(s);
    CleanListSurvives(Unknown(known), s, {}, IdOfFolderDevice);
    CleanListSurvives(Duplicate, s, {}, IdOfFolderDevice);
  }

  /** Our own device is added again if it was removed for being untrusted, and removed again. */
  lemma NothingMoreGoes(f: Folder, s: seq<FolderDevice>, myID: DeviceID, known: set<DeviceID>, untrusted: set<DeviceID>)
    requires IsShareList(f, s, myID, known, untrusted)
    requires myID == EMPTY_DEVICE_ID || myID in known
    ensures Filter(WithMe(s, myID), MayShare(f.receiveEncrypted, untrusted)) == s
  {
    var keep := MayShare(f.receiveEncrypted, untrusted);
    FilterKeeps(s, keep);
    if WithMe(s, myID) != s {
      var me := FolderDevice(myID, EMPTY_DEVICE_ID, "");
      assert WithMe(s, myID) == s + [me] && (s + [me])[..|s|] == s;
      assert !HasId(s, myID) by {
        assert forall d :: d in s ==> IdOfFolderDevice(d) in Ids(s, IdOfFolderDevice);
      }
      assert me in Offered(f, myID);
      assert HasTrustingShare(Offered(f, myID), f.receiveEncrypted, untrusted, myID);
      assert IsTrustingShare(f.receiveEncrypted, untrusted, me);
    }
  }

  /** Preparing a folder a second time leaves it as it is. */
  lemma PreparedFolderStays(f: Folder, r: Folder, r': Folder, myID: DeviceID, known: set<DeviceID>,
      untrusted: set<DeviceID>)
    requires IsPreparedFolder(f, r, myID, known, untrusted)
    requires IsPreparedFolder(r, r', myID, known, untrusted)
    requires myID == EMPTY_DEVICE_ID || myID in known
    ensures r' == r
  {
    PreparedIsShareList(f, r, myID, known, untrusted);
    ShareListIsKnown(r.devices, known);
    NothingMoreGoes(f, r.devices, myID, known, untrusted);
    assert SharesLeft(r, myID, known, untrusted) == r.devices;
    Sorting.SortedIsUnique(r.devices, r'.devices, FolderDeviceLe);
  }

  method PrepareFolder(f: Folder, myID: DeviceID, existing: map<DeviceID, Device>, ghost known: set<DeviceID>,
      ghost untrusted: set<DeviceID>)
    returns (r: Folder)
    requires existing.Keys == known && EMPTY_DEVICE_ID !in known && (myID == EMPTY_DEVICE_ID || myID in known)
    requires forall id :: id in existing ==> (existing[id].untrusted <==> id in untrusted)
    ensures IsPreparedFolder(f, r, myID, known, untrusted)
  {
    hide Survivors;
    hide Filter;
    hide WithMe;
    hide IsPreparedFolder;
    var devices := EnsureExistingDevices(f.devices, existing.Keys);
    devices := EnsureNoDuplicateFolderDevices(devices);
    devices := EnsureDevicePresent(devices, myID);
    SharesAreKnown(f, myID, known);
    devices := EnsureNoUntrustedTrustingSharing(f.receiveEncrypted, devices, existing, untrusted);
    ghost var left := devices;
    devices := Sorting.SortFunc(devices, FolderDeviceLe);
    SortedIsPrepared(f, myID, known, untrusted, left, devices);
    return f.(devices := devices);
  }

  lemma SharesAreKnown(f: Folder, myID: DeviceID, known: set<DeviceID>)
    requires EMPTY_DEVICE_ID !in known && (myID == EMPTY_DEVICE_ID || myID in known)
    ensures forall d :: d in WithMe(KnownOnce(f.devices, known), myID) ==> d.id in known
    ensures Distinct(WithMe(KnownOnce(f.devices, known), myID), IdOfFolderDevice)
  {
    KnownOnceIs(f.devices, known);
    WithMeIs(KnownOnce(f.devices, known), myID);
    hide KnownOnce;
    hide WithMe;
  }

  lemma SortedIsPrepared(
      f: Folder, myID: DeviceID, known: set<DeviceID>, untrusted: set<DeviceID>,
      left: seq<FolderDevice>, devices: seq<FolderDevice>)
    requires EMPTY_DEVICE_ID !in known && (myID == EMPTY_DEVICE_ID || myID in known)
    requires left == SharesLeft(f, myID, known, untrusted)
    requires multiset(devices) == multiset(left) && Sorting.Sorted(devices, FolderDeviceLe)
    ensures IsPreparedFolder(f, f.(devices := devices), myID, known, untrusted)
  {
    SharesAreKnown(f, myID, known);
    var list := WithMe(KnownOnce(f.devices, known), myID);
    FilterKeepsDistinct(list, MayShare(f.receiveEncrypted, untrusted), IdOfFolderDevice);
    hide KnownOnce;
    hide WithMe;
    hide Filter;
    PermutationIsDistinct(left, devices, IdOfFolderDevice);
    hide SharesLeft;
  }

  // ---------- What a prepared folder is ----------

  /** Only the devices of a folder change. They are sorted by their IDs, known, and come from the folder but
      for our own; and plain text goes to no untrusted one. */
  lemma PreparedSharesMean(f: Folder, r: Folder, myID: DeviceID, known: set<DeviceID>, untrusted: set<DeviceID>)
    requires IsPreparedFolder(f, r, myID, known, untrusted) && (myID == EMPTY_DEVICE_ID || myID in known)
    ensures r.id == f.id && r.path == f.path && r.receiveEncrypted == f.receiveEncrypted
    ensures forall i, j :: 0 <= i < j < |r.devices| ==> r.devices[i].id < r.devices[j].id
    ensures forall d :: d in r.devices ==>
              && d.id in known && (f.receiveEncrypted || d.encryptionPassword != "" || d.id !in untrusted)
              && (d in f.devices || (myID != 0 && d == FolderDevice(myID, 0, "")))
  {
    PreparedIsShareList(f, r, myID, known, untrusted);
    forall i, j | 0 <= i < j < |r.devices| ensures r.devices[i].id < r.devices[j].id {
      assert FolderDeviceLe(r.devices[i], r.devices[j]) && !FolderDeviceLe(r.devices[j], r.devices[i]);
    }
    hide HasId;
    hide HasTrustingShare;
    hide SharesLeft;
    hide KnownOnce;
  }

  lemma NoTrustingShare(f: Folder, myID: DeviceID, untrusted: set<DeviceID>, id: DeviceID)
    requires f.receiveEncrypted || id !in untrusted ||
             (id != myID && forall d :: d in f.devices && d.id == id ==> d.encryptionPassword != "")
    ensures !HasTrustingShare(Offered(f, myID), f.receiveEncrypted, untrusted, id)
  {
    forall d | d in Offered(f, myID) && d.id == id ensures !IsTrustingShare(f.receiveEncrypted, untrusted, d) {
      assert d in f.devices || d == FolderDevice(myID, EMPTY_DEVICE_ID, "");
    }
  }

  /** Every known device of the folder stays unless some entry for it would give it plain text although it
      is not trusted; and so does our own. */
  lemma SharesAreNotLost(f: Folder, r: Folder, myID: DeviceID, known: set<DeviceID>, untrusted: set<DeviceID>,
      id: DeviceID)
    requires IsPreparedFolder(f, r, myID, known, untrusted) && (myID == EMPTY_DEVICE_ID || myID in known)
    requires id in known && ((exists d :: d in f.devices && d.id == id) || (id == myID && id != 0))
    requires f.receiveEncrypted || id !in untrusted ||
             (id != myID && forall d :: d in f.devices && d.id == id ==> d.encryptionPassword != "")
    ensures exists d :: d in r.devices && d.id == id
  {
    PreparedIsShareList(f, r, myID, known, untrusted);
    NoTrustingShare(f, myID, untrusted, id);
    hide IsPreparedFolder;
    hide HasTrustingShare;
    var offered, me := Offered(f, myID), FolderDevice(myID, EMPTY_DEVICE_ID, "");
    if d :| d in f.devices && d.id == id {
      assert d in offered;
    } else {
      assert me in offered && me.id == id;
    }
    assert HasId(offered, id);
    assert HasId(r.devices, id);
  }
}
