/** Bringing a configuration into its normal form (lib/config/config.go). */
module ConfigPrepare {
  import opened ConfigLists
  import opened ConfigShares
  import opened ConfigDevices
  import opened Wrappers
  import Sorting

  datatype Configuration = Configuration(folders: seq<Folder>, devices: seq<Device>,
    ignoredDevices: seq<ObservedDevice>)

  datatype Error = FolderIDEmpty | FolderPathEmpty(id: string) | FolderIDDuplicate(id: string)

  // ---------- The order of folders ----------

  /** Comparison of strings character by character. */
  predicate StringLe(a: string, b: string) {
    a == [] || (b != [] && (a[0] < b[0] || (a[0] == b[0] && StringLe(a[1..], b[1..]))))
  }

  predicate FolderLe(a: Folder, b: Folder) { StringLe(a.id, b.id) }

  lemma StringLeTotal(a: string, b: string)
    ensures StringLe(a, b) || StringLe(b, a)
  {
  }

  lemma {:induction false} StringLeTransitive(a: string, b: string, c: string)
    requires StringLe(a, b) && StringLe(b, c)
    ensures StringLe(a, c)
  {
    if a != [] && a[0] == b[0] == c[0] {
      StringLeTransitive(a[1..], b[1..], c[1..]);
    }
  }

  lemma {:induction false} StringLeAntisymmetric(a: string, b: string)
    requires StringLe(a, b) && StringLe(b, a)
    ensures a == b
  {
    if a != [] {
      StringLeAntisymmetric(a[1..], b[1..]);
      assert a == [a[0]] + a[1..] && b == [b[0]] + b[1..];
    }
  }

  lemma {:induction false} PrefixComesFirst(a: string, b: string)
    requires a <= b
    ensures StringLe(a, b)
  {
    if a != [] {
      PrefixComesFirst(a[1..], b[1..]);
    }
  }

  lemma {:induction false} SmallerComesFirst(a: string, b: string, k: nat)
    requires k < |a| && k < |b| && a[..k] == b[..k] && a[k] < b[k]
    ensures StringLe(a, b)
  {
    if k > 0 {
      assert a[..k][0] == a[0] && b[..k][0] == b[0];
      assert a[1..][..k - 1] == a[..k][1..] && b[1..][..k - 1] == b[..k][1..];
      SmallerComesFirst(a[1..], b[1..], k - 1);
    }
  }

  lemma {:induction false} FirstDifference(a: string, b: string) returns (k: nat)
    requires StringLe(a, b) && !(a <= b)
    ensures k < |a| && k < |b| && a[..k] == b[..k] && a[k] < b[k]
  {
    if a[0] < b[0] {
      k := 0;
    } else {
      assert a == [a[0]] + a[1..] && b == [b[0]] + b[1..];
      k := FirstDifference(a[1..], b[1..]);
      assert a[..k + 1] == [a[0]] + a[1..][..k] && b[..k + 1] == [b[0]] + b[1..][..k];
      k := k + 1;
    }
  }

  /** The string that ends first comes first, and otherwise the one with the smaller character where the two
      differ for the first time. */
  lemma StringLeMeans(a: string, b: string)
    ensures StringLe(a, b) <==> a <= b || exists k :: 0 <= k < |a| && k < |b| && a[..k] == b[..k] && a[k] < b[k]
  {
    hide StringLe;
    if a <= b {
      PrefixComesFirst(a, b);
    } else if StringLe(a, b) {
      var k := FirstDifference(a, b);
    } else if k :| 0 <= k < |a| && k < |b| && a[..k] == b[..k] && a[k] < b[k] {
      SmallerComesFirst(a, b, k);
    }
  }

  lemma FoldersAreOrdered()
    ensures Sorting.TotalPreorder(FolderLe)
  {
    forall a: Folder, b: Folder ensures FolderLe(a, b) || FolderLe(b, a) {
      StringLeTotal(a.id, b.id);
    }
    forall a: Folder, b: Folder, c: Folder | FolderLe(a, b) && FolderLe(b, c) ensures FolderLe(a, c) {
      StringLeTransitive(a.id, b.id, c.id);
    }
  }

  // ---------- Which configurations are accepted ----------

  ghost predicate HasFolder(folders: seq<Folder>, id: string) {
    exists f :: f in folders && f.id == id
  }

  ghost function ErrorOf(before: seq<Folder>, f: Folder): Option<Error> {
    if f.id == "" then Some(FolderIDEmpty)
    else if f.path == "" then Some(FolderPathEmpty(f.id))
    else if HasFolder(before, f.id) then Some(FolderIDDuplicate(f.id))
    else None
  }

  /** What is wrong with the first folder that something is wrong with. */
  ghost function FirstError(folders: seq<Folder>): Option<Error> {
    if folders == [] then None else
      var e := FirstError(folders[..|folders| - 1]);
      if e.Some? then e else ErrorOf(folders[..|folders| - 1], folders[|folders| - 1])
  }

  ghost predicate DistinctFolders(folders: seq<Folder>) {
    forall i, j :: 0 <= i < j < |folders| ==> folders[i].id != folders[j].id
  }

  ghost predicate Acceptable(folders: seq<Folder>) {
    DistinctFolders(folders) && forall f :: f in folders ==> f.id != "" && f.path != ""
  }

  lemma OneMoreAcceptable(init: seq<Folder>, f: Folder)
    ensures Acceptable(init + [f]) <==> Acceptable(init) && f.id != "" && f.path != "" && !HasFolder(init, f.id)
  {
    var folders := init + [f];
    assert folders[|init|] == f && f in folders;
    assert forall g :: g in init ==> g in folders;
    assert forall i :: 0 <= i < |init| ==> folders[i] == init[i] && init[i] in init;
    if Acceptable(init) && !HasFolder(init, f.id) {
      assert DistinctFolders(folders);
    } else if DistinctFolders(folders) {
      assert forall i, j :: 0 <= i < j < |init| ==> folders[i].id != folders[j].id;
      assert DistinctFolders(init);
    }
  }

  lemma {:induction false} AcceptedIffAcceptable(folders: seq<Folder>)
    ensures FirstError(folders).None? <==> Acceptable(folders)
  {
    if folders != [] {
      var init, f := folders[..|folders| - 1], folders[|folders| - 1];
      AcceptedIffAcceptable(init);
      assert folders == init + [f];
      OneMoreAcceptable(init, f);
    }
  }

  /** The error is that of the first folder that is not acceptable beside those before it: no ID, or else no
      path, or else an ID that one of them has. */
  lemma {:induction false} FirstErrorMeans(folders: seq<Folder>) returns (i: nat)
    requires FirstError(folders).Some?
    ensures i < |folders| && Acceptable(folders[..i])
    ensures var e, f := FirstError(folders).value, folders[i];
            match e
            case FolderIDEmpty => f.id == ""
            case FolderPathEmpty(id) => f.id != "" && f.path == "" && id == f.id
            case FolderIDDuplicate(id) =>
              f.id != "" && f.path != "" && id == f.id && exists g :: g in folders[..i] && g.id == f.id
  {
    var n := |folders| - 1;
    if FirstError(folders[..n]).Some? {
      i := FirstErrorMeans(folders[..n]);
      assert folders[..n][..i] == folders[..i];
    } else {
      i := n;
      AcceptedIffAcceptable(folders[..n]);
    }
  }

  lemma {:induction false} ErrorStays(folders: seq<Folder>, i: nat)
    requires i <= |folders| && FirstError(folders[..i]).Some?
    ensures FirstError(folders) == FirstError(folders[..i])
    decreases |folders| - i
  {
    if i < |folders| {
      assert folders[..i + 1][..i] == folders[..i];
      ErrorStays(folders, i + 1);
    } else {
      assert folders[..i] == folders;
    }
  }

  lemma NextError(folders: seq<Folder>, i: nat)
    requires i < |folders| && FirstError(folders[..i]).None?
    ensures FirstError(folders[..i + 1]) == ErrorOf(folders[..i], folders[i])
    ensures ErrorOf(folders[..i], folders[i]).Some? ==> FirstError(folders) == ErrorOf(folders[..i], folders[i])
  {
    assert folders[..i + 1][..i] == folders[..i];
    if ErrorOf(folders[..i], folders[i]).Some? {
      ErrorStays(folders, i + 1);
    }
  }

  // ---------- Folders ----------

  /** The IDs of the folders shared with a device. */
  ghost function SharedWith(folders: seq<Folder>, id: DeviceID): set<string> {
    if folders == [] then {} else
      SharedWith(folders[..|folders| - 1], id) +
      if HasId(folders[|folders| - 1].devices, id) then {folders[|folders| - 1].id} else {}
  }

  lemma {:induction false} SharedWithIs(folders: seq<Folder>, id: DeviceID)
    ensures forall fid :: fid in SharedWith(folders, id) <==>
              exists f :: f in folders && f.id == fid && HasId(f.devices, id)
  {
    if folders != [] {
      SharedWithIs(folders[..|folders| - 1], id);
      assert folders == folders[..|folders| - 1] + [folders[|folders| - 1]];
    }
  }

  lemma OneMoreShared(folders: seq<Folder>, f: Folder)
    ensures forall id :: SharedWith(folders + [f], id) ==
                         SharedWith(folders, id) + if HasId(f.devices, id) then {f.id} else {}
  {
    assert (folders + [f])[..|folders|] == folders;
  }

  lemma SharedInAnyOrder(a: seq<Folder>, b: seq<Folder>, id: DeviceID)
    requires multiset(a) == multiset(b)
    ensures SharedWith(a, id) == SharedWith(b, id)
  {
    Sorting.SameElements(a, b);
    SharedWithIs(a, id);
    SharedWithIs(b, id);
    hide SharedWith;
  }

  ghost function Get(shared: map<DeviceID, seq<string>>, id: DeviceID): set<string> {
    if id in shared then AsSet(shared[id]) else {}
  }

  /** The map holds for each device the folders shared with it. */
  ghost predicate Collects(shared: map<DeviceID, seq<string>>, folders: seq<Folder>) {
    forall id :: Get(shared, id) == SharedWith(folders, id)
  }

  method AddShares(shared: map<DeviceID, seq<string>>, folder: Folder, ghost folders: seq<Folder>)
    returns (r: map<DeviceID, seq<string>>)
    requires Collects(shared, folders)
    ensures Collects(r, folders + [folder])
  {
    r := shared;
    for i := 0 to |folder.devices|
      invariant forall id :: Get(r, id) == Get(shared, id) + if HasId(folder.devices[..i], id) then {folder.id} else {}
    {
      var dev := folder.devices[i];
      ghost var before := r;
      var known := if dev.id in r then r[dev.id] else [];
      r := r[dev.id := known + [folder.id]];
      ghost var devices, longer := folder.devices[..i], folder.devices[..i + 1];
      assert longer == devices + [dev];
      forall id ensures Get(r, id) == Get(shared, id) + if HasId(longer, id) then {folder.id} else {} {
        OneMoreShare(devices, dev, id);
        if id == dev.id {
          assert AsSet(known + [folder.id]) == AsSet(known) + {folder.id};
          assert Get(before, id) == AsSet(known);
        }
      }
    }
    assert folder.devices[..|folder.devices|] == folder.devices;
    OneMoreShared(folders, folder);
  }

  lemma OneMoreShare(devices: seq<FolderDevice>, d: FolderDevice, id: DeviceID)
    ensures HasId(devices + [d], id) <==> HasId(devices, id) || d.id == id
  {
    assert d in devices + [d];
    if HasId(devices, id) {
      var e :| e in devices && e.id == id;
      assert e in devices + [d];
    }
  }

  /** All folders as they are prepared, before they are sorted. */
  ghost predicate AllPrepared(
      folders: seq<Folder>, r: seq<Folder>, myID: DeviceID, known: set<DeviceID>, untrusted: set<DeviceID>) {
    |r| == |folders| && forall i :: 0 <= i < |r| ==> IsPreparedFolder(folders[i], r[i], myID, known, untrusted)
  }

  ghost predicate ArePrepared(folders: seq<Folder>, r: seq<Folder>, myID: DeviceID, devices: seq<Device>) {
    AllPrepared(folders, r, myID, Ids(devices, IdOfDevice), Untrusted(devices))
  }

  method CheckFolder(folder: Folder, existingFolders: set<string>, ghost before: seq<Folder>) returns (e: Option<Error>)
    requires NamesOf(existingFolders, before)
    ensures e == ErrorOf(before, folder)
  {
    if folder.id == "" {
      return Some(FolderIDEmpty);
    }
    if folder.path == "" {
      return Some(FolderPathEmpty(folder.id));
    }
    if folder.id in existingFolders {
      return Some(FolderIDDuplicate(folder.id));
    }
    return None;
  }

  /** The loop of PrepareFolders. */
  method PrepareEach(
      folders: seq<Folder>, myID: DeviceID, existing: map<DeviceID, Device>,
      ghost known: set<DeviceID>, ghost untrusted: set<DeviceID>)
    returns (e: Option<Error>, prepared: seq<Folder>, sharedFolders: map<DeviceID, seq<string>>)
    requires existing.Keys == known && EMPTY_DEVICE_ID !in known && (myID == EMPTY_DEVICE_ID || myID in known)
    requires forall id :: id in existing ==> (existing[id].untrusted <==> id in untrusted)
    ensures e == FirstError(folders)
    ensures e.None? ==> AllPrepared(folders, prepared, myID, known, untrusted)
    ensures Collects(sharedFolders, prepared)
  {
    sharedFolders := map[];
    var existingFolders: set<string> := {};
    prepared := [];
    NothingYet(folders, myID, known, untrusted);
    hide *;
    for i := 0 to |folders|
      invariant FirstError(folders[..i]).None?
      invariant AllPrepared(folders[..i], prepared, myID, known, untrusted)
      invariant NamesOf(existingFolders, folders[..i])
      invariant Collects(sharedFolders, prepared)
    {
      var folder := folders[i];
      NextError(folders, i);
      e := CheckFolder(folder, existingFolders, folders[..i]);
      if e.Some? {
        return;
      }
      var p := PrepareFolder(folder, myID, existing, known, untrusted);
      PreparedKeepsId(folder, p, myID, known, untrusted);
      assert folders[..i + 1] == folders[..i] + [folder];
      OneMorePrepared(folders[..i], prepared, folder, p, myID, known, untrusted);
      OneMoreName(existingFolders, folders[..i], folder);
      existingFolders := existingFolders + {folder.id};
      sharedFolders := AddShares(sharedFolders, p, prepared);
      prepared := prepared + [p];
    }
    assert folders[..|folders|] == folders;
    e := None;
  }

  lemma NothingYet(folders: seq<Folder>, myID: DeviceID, known: set<DeviceID>, untrusted: set<DeviceID>)
    ensures FirstError(folders[..0]).None? && AllPrepared(folders[..0], [], myID, known, untrusted)
    ensures NamesOf({}, folders[..0]) && Collects(map[], [])
  {
  }

  lemma OneMorePrepared(
      folders: seq<Folder>, r: seq<Folder>, f: Folder, p: Folder,
      myID: DeviceID, known: set<DeviceID>, untrusted: set<DeviceID>)
    requires AllPrepared(folders, r, myID, known, untrusted) && IsPreparedFolder(f, p, myID, known, untrusted)
    ensures AllPrepared(folders + [f], r + [p], myID, known, untrusted)
  {
    hide IsPreparedFolder;
  }

  method PrepareFolders(folders: seq<Folder>, myID: DeviceID, existing: map<DeviceID, Device>,
      ghost devices: seq<Device>)
    returns (r: Result<seq<Folder>, Error>, sharedFolders: map<DeviceID, seq<string>>, ghost unsorted: seq<Folder>)
    requires IsDeviceList(devices) && IsIndex(existing, devices)
    requires myID == EMPTY_DEVICE_ID || myID in Ids(devices, IdOfDevice)
    ensures FirstError(folders) == if r.Err? then Some(r.error) else None
    ensures r.Ok? ==> ArePrepared(folders, unsorted, myID, devices)
    ensures r.Ok? ==> multiset(r.value) == multiset(unsorted) && Sorting.StrictlySorted(r.value, FolderLe)
    ensures r.Ok? ==> Collects(sharedFolders, r.value)
  {
    var e, prepared;
    IndexIsKnown(existing, devices);
    e, prepared, sharedFolders := PrepareEach(folders, myID, existing, Ids(devices, IdOfDevice), Untrusted(devices));
    unsorted := prepared;
    if e.Some? {
      return Err(e.value), sharedFolders, unsorted;
    }
    AcceptedIffAcceptable(folders);
    hide FirstError;
    hide ArePrepared;
    FoldersAreOrdered();
    var sorted := Sorting.SortFunc(prepared, FolderLe);
    PreparedSortStrictly(folders, prepared, sorted, myID, devices);
    forall id ensures SharedWith(prepared, id) == SharedWith(sorted, id) {
      SharedInAnyOrder(prepared, sorted, id);
    }
    r := Ok(sorted);
  }

  lemma IndexIsKnown(existing: map<DeviceID, Device>, devices: seq<Device>)
    requires IsIndex(existing, devices)
    ensures existing.Keys == Ids(devices, IdOfDevice)
    ensures forall id :: id in existing ==> (existing[id].untrusted <==> id in Untrusted(devices))
  {
    forall id | id in existing ensures existing[id].untrusted <==> id in Untrusted(devices) {
      assert existing[id] in devices;
    }
    forall id ensures id in existing <==> id in Ids(devices, IdOfDevice) {
      if id in existing {
        assert IdOfDevice(existing[id]) == id;
      }
    }
  }

  lemma PreparedKeepsId(f: Folder, r: Folder, myID: DeviceID, known: set<DeviceID>, untrusted: set<DeviceID>)
    requires IsPreparedFolder(f, r, myID, known, untrusted)
    ensures r.id == f.id && r.path == f.path && r.receiveEncrypted == f.receiveEncrypted
  {
  }

  ghost predicate NamesOf(ids: set<string>, folders: seq<Folder>) {
    forall id :: id in ids <==> HasFolder(folders, id)
  }

  lemma OneMoreName(ids: set<string>, folders: seq<Folder>, f: Folder)
    requires NamesOf(ids, folders)
    ensures NamesOf(ids + {f.id}, folders + [f])
  {
    assert f in folders + [f];
    forall id | HasFolder(folders, id) ensures HasFolder(folders + [f], id) {
      var g :| g in folders && g.id == id;
      assert g in folders + [f];
    }
  }

  lemma PreparedSortStrictly(
      folders: seq<Folder>, prepared: seq<Folder>, sorted: seq<Folder>, myID: DeviceID, devices: seq<Device>)
    requires Acceptable(folders) && ArePrepared(folders, prepared, myID, devices)
    requires Sorting.Sorted(sorted, FolderLe) && multiset(sorted) == multiset(prepared)
    ensures Sorting.StrictlySorted(sorted, FolderLe)
  {
    forall i, j | 0 <= i < j < |prepared| ensures prepared[i].id != prepared[j].id {
      PreparedKeepsId(folders[i], prepared[i], myID, Ids(devices, IdOfDevice), Untrusted(devices));
      PreparedKeepsId(folders[j], prepared[j], myID, Ids(devices, IdOfDevice), Untrusted(devices));
    }
    hide IsPreparedFolder;
    forall i, j | 0 <= i < j < |sorted| ensures FolderLe(sorted[i], sorted[j]) && !FolderLe(sorted[j], sorted[i]) {
      DistinctInAnyOrder(prepared, sorted, i, j);
      if FolderLe(sorted[j], sorted[i]) {
        StringLeAntisymmetric(sorted[i].id, sorted[j].id);
      }
    }
  }

  lemma FolderOnce(a: seq<Folder>, k: nat)
    requires DistinctFolders(a) && k < |a|
    ensures multiset(a)[a[k]] == 1
  {
    Sorting.OccursOnce(a, k);
  }

  lemma DistinctInAnyOrder(a: seq<Folder>, b: seq<Folder>, i: nat, j: nat)
    requires DistinctFolders(a) && multiset(a) == multiset(b) && i < j < |b|
    ensures b[i].id != b[j].id
  {
    Sorting.SameElements(a, b);
    assert b[i] in a && b[j] in a;
    var k :| 0 <= k < |a| && a[k] == b[i];
    var l :| 0 <= l < |a| && a[l] == b[j];
    if k == l {
      Sorting.TwiceMeansTwo(b, i, j);
      FolderOnce(a, k);
    } else {
      assert a[if k < l then k else l].id != a[if k < l then l else k].id;
    }
  }

  // ---------- The whole configuration ----------

  function NotIn(ids: set<DeviceID>): ObservedDevice -> bool {
    (d: ObservedDevice) => d.id !in ids
  }

  method PrepareIgnoredDevices(ignored: seq<ObservedDevice>, existing: set<DeviceID>) returns (r: seq<ObservedDevice>)
    ensures r == Filter(ignored, NotIn(existing))
  {
    r := [];
    for i := 0 to |ignored|
      invariant r == Filter(ignored[..i], NotIn(existing))
    {
      FilterStep(ignored, NotIn(existing), i);
      if ignored[i].id !in existing {
        r := r + [ignored[i]];
      }
    }
    assert ignored[..|ignored|] == ignored;
  }

  /** The device d after preparing it and removing deprecated addresses. */
  ghost predicate IsFinalDevice(d: Device, r: Device, shared: set<string>, scheme: Schemes) {
    && IsPreparedDevice(d, r.(addresses := OrDynamic(d.addresses)), shared)
    && r.addresses == Addresses(scheme, d.addresses)
  }

  ghost predicate AreFinal(devices: seq<Device>, r: seq<Device>, folders: seq<Folder>, scheme: Schemes) {
    && |r| == |devices|
    && forall i :: 0 <= i < |r| ==> IsFinalDevice(devices[i], r[i], SharedWith(folders, devices[i].id), scheme)
  }

  /** First each device is prepared, later deprecated addresses are removed from each. */
  method PrepareDevices(devices: seq<Device>, sharedFolders: map<DeviceID, seq<string>>, scheme: Schemes,
      ghost folders: seq<Folder>)
    returns (r: seq<Device>)
    requires Collects(sharedFolders, folders)
    ensures AreFinal(devices, r, folders, scheme)
  {
    hide *;
    r := [];
    for i := 0 to |devices|
      invariant |r| == i
      invariant forall k :: 0 <= k < i ==> IsPreparedDevice(devices[k], r[k], SharedWith(folders, devices[k].id))
    {
      var shared := if devices[i].id in sharedFolders then sharedFolders[devices[i].id] else [];
      SharedIsCollected(sharedFolders, folders, devices[i].id);
      var d := PrepareDevice(devices[i], shared);
      r := r + [d];
    }
    ghost var prepared := r;
    for i := 0 to |r|
      invariant |r| == |devices|
      invariant forall k :: 0 <= k < i ==> IsFinalDevice(devices[k], r[k], SharedWith(folders, devices[k].id), scheme)
      invariant forall k :: i <= k < |r| ==> r[k] == prepared[k]
    {
      var addresses := FilterURLSchemePrefix(r[i].addresses, scheme, "kcp");
      assert r[i] == prepared[i];
      AddressesLast(devices[i], r[i], SharedWith(folders, devices[i].id), scheme);
      r := r[i := r[i].(addresses := addresses)];
    }
    AllAreFinal(devices, r, folders, scheme);
  }

  lemma SharedIsCollected(shared: map<DeviceID, seq<string>>, folders: seq<Folder>, id: DeviceID)
    requires Collects(shared, folders)
    ensures AsSet(if id in shared then shared[id] else []) == SharedWith(folders, id)
  {
    assert Get(shared, id) == SharedWith(folders, id);
  }

  lemma AllAreFinal(devices: seq<Device>, r: seq<Device>, folders: seq<Folder>, scheme: Schemes)
    requires |r| == |devices|
    requires forall k :: 0 <= k < |r| ==> IsFinalDevice(devices[k], r[k], SharedWith(folders, devices[k].id), scheme)
    ensures AreFinal(devices, r, folders, scheme)
  {
    hide IsFinalDevice;
  }

  lemma AddressesLast(d: Device, p: Device, shared: set<string>, scheme: Schemes)
    requires IsPreparedDevice(d, p, shared)
    ensures IsFinalDevice(d, p.(addresses := Filter(p.addresses, NotDeprecated(scheme, "kcp"))), shared, scheme)
  {
    assert p.(addresses := OrDynamic(d.addresses)) == p;
  }

  // What is known after preparing the list of devices, and the folders before they are sorted.
  datatype Work = Work(devices: seq<Device>, folders: seq<Folder>)

  ghost predicate IsPrepared(cfg: Configuration, r: Configuration, w: Work, myID: DeviceID, hostname: string,
      scheme: Schemes) {
    && multiset(w.devices) == multiset(DevicesLeft(WithMyDevice(cfg.devices, myID, hostname)))
    && IsDeviceList(w.devices)
    && ArePrepared(cfg.folders, w.folders, myID, w.devices)
    && multiset(r.folders) == multiset(w.folders) && Sorting.StrictlySorted(r.folders, FolderLe)
    && AreFinal(w.devices, r.devices, r.folders, scheme)
    && r.ignoredDevices == Filter(cfg.ignoredDevices, NotIn(Ids(w.devices, IdOfDevice)))
  }

  /** A configuration is refused exactly for the first folder without an ID, without a path or with
      the ID of one before it. */
  method Prepare(cfg: Configuration, myID: DeviceID, hostname: string, scheme: Schemes)
    returns (r: Result<Configuration, Error>, ghost w: Work)
    ensures r.Ok? <==> Acceptable(cfg.folders)
    ensures FirstError(cfg.folders) == if r.Err? then Some(r.error) else None
    ensures r.Ok? ==> IsPrepared(cfg, r.value, w, myID, hostname, scheme)
    ensures r.Ok? ==> myID == EMPTY_DEVICE_ID || myID in Ids(w.devices, IdOfDevice)
  {
    AcceptedIffAcceptable(cfg.folders);
    var devices := EnsureMyDevice(cfg.devices, myID, hostname);
    MyDeviceIsThere(cfg.devices, myID, hostname);
    var existing;
    devices, existing := PrepareDeviceList(devices);
    IndexIsKnown(existing, devices);
    hide Acceptable;
    hide IsDeviceList;
    hide IsIndex;
    hide Ids;
    hide FirstError;
    var folders, sharedFolders, unsorted := PrepareFolders(cfg.folders, myID, existing, devices);
    w := Work(devices, unsorted);
    if folders.Err? {
      return Err(folders.error), w;
    }
    var prepared := PrepareDevices(devices, sharedFolders, scheme, folders.value);
    var ignored := PrepareIgnoredDevices(cfg.ignoredDevices, existing.Keys);
    r := Ok(Configuration(folders.value, prepared, ignored));
  }

  lemma MyDeviceIsThere(devices: seq<Device>, myID: DeviceID, hostname: string)
    ensures myID == EMPTY_DEVICE_ID || myID in Ids(WithMyDevice(devices, myID, hostname), IdOfDevice)
  {
    var r := WithMyDevice(devices, myID, hostname);
    if r != devices {
      assert r[|devices|] in r;
      assert IdOfDevice(r[|devices|]) == myID;
    }
  }

  // ---------- The normal form ----------

  ghost predicate IsNormalFolder(f: Folder, known: set<DeviceID>, untrusted: set<DeviceID>) {
    && Sorting.StrictlySorted(f.devices, FolderDeviceLe)
    && forall d :: d in f.devices ==> d.id in known && !IsTrustingShare(f.receiveEncrypted, untrusted, d)
  }

  ghost predicate IsNormalDevice(d: Device, folders: seq<Folder>) {
    && (d.untrusted ==> !d.introducer && !d.autoAcceptFolders)
    && (forall i, j :: 0 <= i < j < |d.ignoredFolders| ==> d.ignoredFolders[i].id != d.ignoredFolders[j].id)
    && Sorting.Sorted(d.ignoredFolders, ObservedLe)
    && (forall f, g :: f in folders && g in d.ignoredFolders && f.id == g.id ==> !HasId(f.devices, d.id))
  }

  ghost predicate IsNormal(cfg: Configuration, myID: DeviceID) {
    && IsDeviceList(cfg.devices)
    && (myID != EMPTY_DEVICE_ID ==> myID in Ids(cfg.devices, IdOfDevice))
    && Sorting.StrictlySorted(cfg.folders, FolderLe)
    && (forall f :: f in cfg.folders ==> IsNormalFolder(f, Ids(cfg.devices, IdOfDevice), Untrusted(cfg.devices)))
    && (forall d :: d in cfg.devices ==> IsNormalDevice(d, cfg.folders))
    && (forall d :: d in cfg.ignoredDevices ==> d.id !in Ids(cfg.devices, IdOfDevice))
  }

  lemma FinalKeepsList(devices: seq<Device>, r: seq<Device>, folders: seq<Folder>, scheme: Schemes)
    requires IsDeviceList(devices) && AreFinal(devices, r, folders, scheme)
    ensures IsDeviceList(r) && Ids(r, IdOfDevice) == Ids(devices, IdOfDevice) && Untrusted(r) == Untrusted(devices)
  {
    forall i | 0 <= i < |r| ensures r[i].id == devices[i].id && r[i].untrusted == devices[i].untrusted {
      FinalKeepsId(devices[i], r[i], SharedWith(folders, devices[i].id), scheme);
    }
    hide AreFinal;
    SameIds(devices, r);
    forall i, j | 0 <= i < j < |r| ensures DeviceLe(r[i], r[j]) && !DeviceLe(r[j], r[i]) {
      assert DeviceLe(devices[i], devices[j]) && !DeviceLe(devices[j], devices[i]);
    }
  }

  lemma FinalKeepsId(d: Device, r: Device, shared: set<string>, scheme: Schemes)
    requires IsFinalDevice(d, r, shared, scheme)
    ensures r.id == d.id && r.untrusted == d.untrusted
  {
  }

  lemma SameIds(a: seq<Device>, b: seq<Device>)
    requires |a| == |b| && forall i :: 0 <= i < |a| ==> a[i].id == b[i].id && a[i].untrusted == b[i].untrusted
    ensures Ids(a, IdOfDevice) == Ids(b, IdOfDevice) && Untrusted(a) == Untrusted(b)
  {
    SubsetOfIds(a, b);
    SubsetOfIds(b, a);
  }

  lemma SubsetOfIds(a: seq<Device>, b: seq<Device>)
    requires |a| == |b| && forall i :: 0 <= i < |a| ==> a[i].id == b[i].id && a[i].untrusted == b[i].untrusted
    ensures Ids(a, IdOfDevice) <= Ids(b, IdOfDevice) && Untrusted(a) <= Untrusted(b)
  {
    forall d | d in a ensures d.id in Ids(b, IdOfDevice) && (d.untrusted ==> d.id in Untrusted(b)) {
      var i :| 0 <= i < |a| && a[i] == d;
      assert b[i] in b && IdOfDevice(b[i]) == d.id;
    }
  }

  lemma MyDeviceIsKnown(cfg: Configuration, w: Work, myID: DeviceID, hostname: string)
    requires multiset(w.devices) == multiset(DevicesLeft(WithMyDevice(cfg.devices, myID, hostname)))
    ensures myID == EMPTY_DEVICE_ID || myID in Ids(w.devices, IdOfDevice)
  {
    var mine := WithMyDevice(cfg.devices, myID, hostname);
    MyDeviceIsThere(cfg.devices, myID, hostname);
    OneOfEachSurvives(DuplicateOrEmpty, mine, {}, IdOfDevice);
    Sorting.SameElements(w.devices, DevicesLeft(mine));
    hide Survivors;
    assert Ids(w.devices, IdOfDevice) == Ids(DevicesLeft(mine), IdOfDevice);
  }

  lemma PreparedFolderIsNormal(
      folders: seq<Folder>, prepared: seq<Folder>, myID: DeviceID, devices: seq<Device>, f: Folder)
    requires ArePrepared(folders, prepared, myID, devices) && f in prepared
    requires myID == EMPTY_DEVICE_ID || myID in Ids(devices, IdOfDevice)
    ensures IsNormalFolder(f, Ids(devices, IdOfDevice), Untrusted(devices))
  {
    var i :| 0 <= i < |prepared| && prepared[i] == f;
    PreparedIsShareList(folders[i], f, myID, Ids(devices, IdOfDevice), Untrusted(devices));
    PreparedKeepsId(folders[i], f, myID, Ids(devices, IdOfDevice), Untrusted(devices));
  }

  lemma FinalDeviceIsNormal(d: Device, r: Device, folders: seq<Folder>, scheme: Schemes)
    requires IsFinalDevice(d, r, SharedWith(folders, d.id), scheme)
    ensures IsNormalDevice(r, folders)
  {
    SharedWithIs(folders, d.id);
    hide SharedWith;
    forall f, g | f in folders && g in r.ignoredFolders && f.id == g.id ensures !HasId(f.devices, r.id) {
      assert g.id !in SharedWith(folders, d.id);
    }
  }

  lemma FinalDevicesAreNormal(devices: seq<Device>, r: seq<Device>, folders: seq<Folder>, scheme: Schemes)
    requires AreFinal(devices, r, folders, scheme)
    ensures forall d :: d in r ==> IsNormalDevice(d, folders)
  {
    hide IsNormalDevice;
    hide IsFinalDevice;
    forall d | d in r ensures IsNormalDevice(d, folders) {
      var i :| 0 <= i < |r| && r[i] == d;
      FinalDeviceIsNormal(devices[i], d, folders, scheme);
    }
  }

  /** Whatever is accepted is brought into its normal form. */
  lemma PreparedIsNormal(cfg: Configuration, r: Configuration, w: Work, myID: DeviceID, hostname: string,
      scheme: Schemes)
    requires IsPrepared(cfg, r, w, myID, hostname, scheme)
    ensures IsNormal(r, myID)
  {
    hide DevicesLeft;
    hide WithMyDevice;
    hide Ids;
    hide Untrusted;
    hide IsNormalFolder;
    hide IsNormalDevice;
    hide IsDeviceList;
    hide Sorting.StrictlySorted;
    hide Filter;
    hide AreFinal;
    FinalKeepsList(w.devices, r.devices, r.folders, scheme);
    MyDeviceIsKnown(cfg, w, myID, hostname);
    Sorting.SameElements(r.folders, w.folders);
    FilterKeeps(cfg.ignoredDevices, NotIn(Ids(w.devices, IdOfDevice)));
    FinalDevicesAreNormal(w.devices, r.devices, r.folders, scheme);
    forall f | f in r.folders ensures IsNormalFolder(f, Ids(r.devices, IdOfDevice), Untrusted(r.devices)) {
      PreparedFolderIsNormal(cfg.folders, w.folders, myID, w.devices, f);
    }
  }

  /** In other words, for a device d and a folder f of such a configuration. */
  lemma NormalMeans(cfg: Configuration, myID: DeviceID, d: Device, f: Folder)
    requires IsNormal(cfg, myID) && d in cfg.devices && f in cfg.folders
    ensures d.id != 0 && (d.untrusted ==> !d.introducer && !d.autoAcceptFolders)
    ensures forall x :: x in f.devices ==> exists e :: e in cfg.devices && e.id == x.id
    ensures forall x :: x in f.devices && x.id == d.id && d.untrusted ==>
              f.receiveEncrypted || x.encryptionPassword != ""
    ensures forall x, g :: x in f.devices && g in d.ignoredFolders && x.id == d.id ==> g.id != f.id
    ensures forall o :: o in cfg.ignoredDevices ==> o.id != d.id
    ensures myID != 0 ==> exists e :: e in cfg.devices && e.id == myID
  {
    hide IsDeviceList;
    hide Sorting.StrictlySorted;
    assert d.id != 0 && IdOfDevice(d) in Ids(cfg.devices, IdOfDevice) by {
      NoEmptyId(cfg.devices, d);
    }
    forall x | x in f.devices ensures exists e :: e in cfg.devices && e.id == x.id {
      HasIdMeans(cfg.devices, x.id);
    }
    forall x | x in f.devices && x.id == d.id && d.untrusted ensures f.receiveEncrypted || x.encryptionPassword != "" {
      assert d.id in Untrusted(cfg.devices);
    }
    HasIdMeans(cfg.devices, myID);
  }

  lemma NoEmptyId(devices: seq<Device>, d: Device)
    requires IsDeviceList(devices) && d in devices
    ensures d.id != 0 && IdOfDevice(d) in Ids(devices, IdOfDevice)
  {
  }

  // ---------- Preparing again ----------

  lemma DeviceListStays(devices: seq<Device>, again: seq<Device>, myID: DeviceID, hostname: string)
    requires IsDeviceList(devices) && (myID == EMPTY_DEVICE_ID || myID in Ids(devices, IdOfDevice))
    requires multiset(again) == multiset(DevicesLeft(WithMyDevice(devices, myID, hostname)))
    requires Sorting.StrictlySorted(again, DeviceLe)
    ensures again == devices
  {
    assert Distinct(devices, IdOfDevice) by {
      forall i, j | 0 <= i < j < |devices| ensures devices[i].id != devices[j].id {
        assert DeviceLe(devices[i], devices[j]) && !DeviceLe(devices[j], devices[i]);
      }
    }
    CleanListSurvives(DuplicateOrEmpty, devices, {}, IdOfDevice);
    hide Survivors;
    assert DevicesLeft(WithMyDevice(devices, myID, hostname)) == devices;
    Sorting.SortedIsUnique(devices, again, DeviceLe);
  }

  lemma FoldersStay(
      folders: seq<Folder>, prepared: seq<Folder>, sorted: seq<Folder>, again: seq<Folder>,
      myID: DeviceID, devices: seq<Device>, devices': seq<Device>)
    requires ArePrepared(folders, prepared, myID, devices) && multiset(sorted) == multiset(prepared)
    requires ArePrepared(sorted, again, myID, devices')
    requires Ids(devices', IdOfDevice) == Ids(devices, IdOfDevice) && Untrusted(devices') == Untrusted(devices)
    requires myID == EMPTY_DEVICE_ID || myID in Ids(devices, IdOfDevice)
    ensures again == sorted
  {
    hide IsPreparedFolder;
    Sorting.SameElements(sorted, prepared);
    forall i | 0 <= i < |sorted| ensures again[i] == sorted[i] {
      assert sorted[i] in prepared;
      var k :| 0 <= k < |prepared| && prepared[k] == sorted[i];
      PreparedFolderStays(folders[k], sorted[i], again[i], myID, Ids(devices, IdOfDevice), Untrusted(devices));
    }
  }

  /** But for its addresses and the order of folders ignored at the same time. */
  ghost predicate SameDevice(r: Device, r': Device, scheme: Schemes) {
    && r' == r.(addresses := Addresses(scheme, r.addresses), ignoredFolders := r'.ignoredFolders)
    && multiset(r'.ignoredFolders) == multiset(r.ignoredFolders)
  }

  lemma FinalDeviceStays(d: Device, r: Device, r': Device, shared: set<string>, scheme: Schemes)
    requires IsFinalDevice(d, r, shared, scheme) && IsFinalDevice(r, r', shared, scheme)
    ensures SameDevice(r, r', scheme)
  {
    var p := r.(addresses := OrDynamic(d.addresses));
    var p' := r'.(addresses := OrDynamic(p.addresses));
    assert IsPreparedDevice(p, p', shared);
    PreparedDeviceStays(d, p, p', shared);
  }

  /** Preparing a prepared configuration again changes neither the list of devices nor that of
      ignored devices, nor any folder, nor which folders a device ignores. Addresses may change as
      AddressesSettle in ConfigDevices says. */
  lemma PreparedStays(
      cfg: Configuration, r: Configuration, w: Work, r': Configuration, w': Work,
      myID: DeviceID, hostname: string, hostname': string, scheme: Schemes)
    requires IsPrepared(cfg, r, w, myID, hostname, scheme) && IsPrepared(r, r', w', myID, hostname', scheme)
    ensures r'.folders == r.folders && r'.ignoredDevices == r.ignoredDevices
    ensures |r'.devices| == |r.devices| && forall i :: 0 <= i < |r.devices| ==>
        SameDevice(r.devices[i], r'.devices[i], scheme)
  {
    FinalKeepsList(w.devices, r.devices, r.folders, scheme);
    MyDeviceIsKnown(cfg, w, myID, hostname);
    DeviceListStays(r.devices, w'.devices, myID, hostname');
    FoldersStay(cfg.folders, w.folders, r.folders, w'.folders, myID, w.devices, w'.devices);
    Sorting.SortedIsUnique(r.folders, r'.folders, FolderLe);
    FilterKeeps(cfg.ignoredDevices, NotIn(Ids(w.devices, IdOfDevice)));
    FilterKeeps(r.ignoredDevices, NotIn(Ids(w.devices, IdOfDevice)));
    hide DevicesLeft;
    hide WithMyDevice;
    hide ArePrepared;
    hide IsFinalDevice;
    hide SameDevice;
    forall i | 0 <= i < |r.devices| ensures SameDevice(r.devices[i], r'.devices[i], scheme) {
      FinalKeepsId(w.devices[i], r.devices[i], SharedWith(r.folders, w.devices[i].id), scheme);
      FinalDeviceStays(w.devices[i], r.devices[i], r'.devices[i], SharedWith(r.folders, w.devices[i].id), scheme);
    }
  }

  /** So a device keeps everything, which folders it ignores included, but for its addresses. */
  lemma PreparedDeviceKeeps(
      cfg: Configuration, r: Configuration, w: Work, r': Configuration, w': Work,
      myID: DeviceID, hostname: string, hostname': string, scheme: Schemes, i: nat)
    requires IsPrepared(cfg, r, w, myID, hostname, scheme) && IsPrepared(r, r', w', myID, hostname', scheme)
    requires i < |r.devices| == |r'.devices|
    ensures var d, d' := r.devices[i], r'.devices[i];
            && d'.id == d.id && d'.name == d.name && d'.untrusted == d.untrusted
            && d'.introducer == d.introducer && d'.autoAcceptFolders == d.autoAcceptFolders
            && d'.addresses == Addresses(scheme, d.addresses)
            && multiset(d'.ignoredFolders) == multiset(d.ignoredFolders)
  {
    PreparedStays(cfg, r, w, r', w', myID, hostname, hostname', scheme);
    hide IsPrepared;
    assert SameDevice(r.devices[i], r'.devices[i], scheme);
  }

  // ---------- What a prepared configuration is ----------

  lemma IdsOfPrepared(cfg: Configuration, r: Configuration, w: Work, myID: DeviceID, hostname: string,
      scheme: Schemes)
    requires IsPrepared(cfg, r, w, myID, hostname, scheme)
    ensures IsDeviceList(r.devices)
    ensures Ids(r.devices, IdOfDevice) ==
            Ids(cfg.devices, IdOfDevice) + (if myID == 0 then {} else {myID}) - {EMPTY_DEVICE_ID}
  {
    var mine := WithMyDevice(cfg.devices, myID, hostname);
    FinalKeepsList(w.devices, r.devices, r.folders, scheme);
    IdsWithMyDevice(cfg.devices, myID, hostname);
    OneOfEachSurvives(DuplicateOrEmpty, mine, {}, IdOfDevice);
    Sorting.SameElements(w.devices, DevicesLeft(mine));
    SameMembersSameIds(w.devices, DevicesLeft(mine));
    hide Survivors;
    hide WithMyDevice;
    hide IsDeviceList;
    hide ArePrepared;
    hide AreFinal;
    hide Filter;
    hide Sorting.StrictlySorted;
    hide Ids;
  }

  /** The devices are those of the given list with an ID, and our own, sorted by ID. */
  lemma PreparedDevicesMean(cfg: Configuration, r: Configuration, w: Work, myID: DeviceID, hostname: string,
      scheme: Schemes, id: DeviceID)
    requires IsPrepared(cfg, r, w, myID, hostname, scheme)
    ensures forall i, j :: 0 <= i < j < |r.devices| ==> r.devices[i].id < r.devices[j].id
    ensures (exists d :: d in r.devices && d.id == id) <==>
            id != 0 && (id == myID || exists d :: d in cfg.devices && d.id == id)
  {
    hide IsPrepared;
    IdsOfPrepared(cfg, r, w, myID, hostname, scheme);
    forall i, j | 0 <= i < j < |r.devices| ensures r.devices[i].id < r.devices[j].id {
      assert DeviceLe(r.devices[i], r.devices[j]) && !DeviceLe(r.devices[j], r.devices[i]);
    }
    HasIdMeans(r.devices, id);
    HasIdMeans(cfg.devices, id);
    hide Ids;
  }

  lemma HasIdMeans(devices: seq<Device>, id: DeviceID)
    ensures id in Ids(devices, IdOfDevice) <==> exists d :: d in devices && d.id == id
  {
    if d :| d in devices && d.id == id {
      assert IdOfDevice(d) == id;
    }
  }

  lemma SameMembersSameIds(a: seq<Device>, b: seq<Device>)
    requires forall d :: d in a <==> d in b
    ensures Ids(a, IdOfDevice) == Ids(b, IdOfDevice)
  {
  }

  lemma IdsWithMyDevice(devices: seq<Device>, myID: DeviceID, hostname: string)
    ensures Ids(WithMyDevice(devices, myID, hostname), IdOfDevice) ==
            Ids(devices, IdOfDevice) + if myID == 0 then {} else {myID}
  {
    var r := WithMyDevice(devices, myID, hostname);
    if r != devices {
      var me := Device(myID, hostname, [], false, false, false, []);
      assert forall d :: d in r <==> d in devices || d == me;
      assert IdOfDevice(me) == myID && me in r;
    }
  }

  /** Each of them has the name of an entry for it, and is trusted exactly if that is; only if there was no
      entry for our own device it has the name of the host. */
  lemma PreparedDevicesComeFrom(cfg: Configuration, r: Configuration, w: Work, myID: DeviceID, hostname: string,
      scheme: Schemes, d: Device)
    requires IsPrepared(cfg, r, w, myID, hostname, scheme) && d in r.devices
    ensures || (exists e :: e in cfg.devices && e.id == d.id && e.name == d.name && e.untrusted == d.untrusted)
            || (d.id == myID && d.name == hostname && !d.untrusted && forall e :: e in cfg.devices ==> e.id != myID)
  {
    var i :| 0 <= i < |r.devices| && r.devices[i] == d;
    var e := w.devices[i];
    assert IsFinalDevice(e, d, SharedWith(r.folders, e.id), scheme);
    var mine := WithMyDevice(cfg.devices, myID, hostname);
    SurvivorsComeFromList(DuplicateOrEmpty, mine, {}, IdOfDevice);
    Sorting.SameElements(w.devices, DevicesLeft(mine));
    assert e in w.devices && e in mine;
    hide Survivors;
    hide IsPrepared;
    if e !in cfg.devices {
      forall x | x in cfg.devices ensures x.id != myID {
        assert IdOfDevice(x) in Ids(cfg.devices, IdOfDevice);
      }
    }
  }

  lemma FolderIsPrepared(folders: seq<Folder>, r: seq<Folder>, myID: DeviceID, devices: seq<Device>, i: nat)
    requires ArePrepared(folders, r, myID, devices) && i < |folders|
    ensures |r| == |folders| && r[i] in r
    ensures r[i].id == folders[i].id && r[i].path == folders[i].path
    ensures r[i].receiveEncrypted == folders[i].receiveEncrypted
  {
    PreparedKeepsId(folders[i], r[i], myID, Ids(devices, IdOfDevice), Untrusted(devices));
  }

  /** Every folder is there once, with its path and its kind, and the folders are sorted by ID. */
  lemma PreparedFoldersMean(cfg: Configuration, r: Configuration, w: Work, myID: DeviceID, hostname: string,
      scheme: Schemes, f: Folder)
    requires IsPrepared(cfg, r, w, myID, hostname, scheme)
    ensures |r.folders| == |cfg.folders|
    ensures f in cfg.folders ==>
              exists g :: g in r.folders && g.id == f.id && g.path == f.path && g.receiveEncrypted == f.receiveEncrypted
    ensures forall i, j :: 0 <= i < j < |r.folders| ==>
              StringLe(r.folders[i].id, r.folders[j].id) && r.folders[i].id != r.folders[j].id
  {
    hide AllPrepared;
    hide IsDeviceList;
    hide AreFinal;
    hide DevicesLeft;
    hide Filter;
    hide StringLe;
    Sorting.SameElements(r.folders, w.folders);
    NumberOfPrepared(cfg.folders, w.folders, myID, w.devices);
    if f in cfg.folders {
      var i :| 0 <= i < |cfg.folders| && cfg.folders[i] == f;
      FolderIsPrepared(cfg.folders, w.folders, myID, w.devices, i);
      assert w.folders[i] in r.folders;
    }
    forall i, j | 0 <= i < j < |r.folders|
      ensures StringLe(r.folders[i].id, r.folders[j].id) && r.folders[i].id != r.folders[j].id
    {
      assert FolderLe(r.folders[i], r.folders[j]) && !FolderLe(r.folders[j], r.folders[i]);
    }
  }

  lemma NumberOfPrepared(folders: seq<Folder>, r: seq<Folder>, myID: DeviceID, devices: seq<Device>)
    requires ArePrepared(folders, r, myID, devices)
    ensures |r| == |folders|
  {
  }

  /** The ignored devices are those that are not configured. */
  lemma PreparedIgnoredMean(cfg: Configuration, r: Configuration, w: Work, myID: DeviceID, hostname: string,
      scheme: Schemes, d: ObservedDevice)
    requires IsPrepared(cfg, r, w, myID, hostname, scheme)
    ensures multiset(r.ignoredDevices)[d] ==
            if exists x :: x in r.devices && x.id == d.id then 0 else multiset(cfg.ignoredDevices)[d]
  {
    FinalKeepsList(w.devices, r.devices, r.folders, scheme);
    FilterCounts(cfg.ignoredDevices, NotIn(Ids(w.devices, IdOfDevice)), d);
    HasIdMeans(r.devices, d.id);
    hide Filter;
    hide Ids;
    hide AreFinal;
    hide ArePrepared;
  }
}
