/** The configuration of a device, but for the folders shared with it
    (lib/config/deviceconfiguration.go). */
module ConfigDevices {
  import opened ConfigLists
  import opened Wrappers
  import Sorting

  predicate ObservedLe(a: ObservedFolder, b: ObservedFolder) { a.time <= b.time }

  // ---------- Ignored folders ----------

  /** The latest observation of each folder, the first one of several of the same time. */
  ghost function Latest(input: seq<ObservedFolder>): map<string, ObservedFolder> {
    if input == [] then map[] else
      var m, f := Latest(input[..|input| - 1]), input[|input| - 1];
      if f.id !in m || m[f.id].time < f.time then m[f.id := f] else m
  }

  ghost predicate IsLatest(input: seq<ObservedFolder>, i: nat)
    requires i < |input|
  {
    && (forall k :: 0 <= k < i && input[k].id == input[i].id ==> input[k].time < input[i].time)
    && (forall k :: i < k < |input| && input[k].id == input[i].id ==> input[k].time <= input[i].time)
  }

  ghost predicate ComesFrom(input: seq<ObservedFolder>, f: ObservedFolder) {
    exists i :: 0 <= i < |input| && input[i] == f && IsLatest(input, i)
  }

  lemma {:induction false} LatestIs(input: seq<ObservedFolder>)
    ensures forall id :: id in Latest(input) ==> Latest(input)[id].id == id && ComesFrom(input, Latest(input)[id])
    ensures forall f :: f in input ==> f.id in Latest(input)
  {
    if input != [] {
      var init, f := input[..|input| - 1], input[|input| - 1];
      var m, m' := Latest(init), Latest(input);
      LatestIs(init);
      assert input == init + [f];
      assert m' == if f.id !in m || m[f.id].time < f.time then m[f.id := f] else m;
      hide Latest;
      forall id | id in m' ensures ComesFrom(input, m'[id]) {
        if m' != m && id == f.id {
          assert f.id in m ==> ComesFrom(init, m[f.id]);
          LaterTakesOver(init, f, m);
        } else {
          EarlierRemains(init, f, m[id]);
        }
      }
    }
  }

  lemma EarlierRemains(init: seq<ObservedFolder>, f: ObservedFolder, g: ObservedFolder)
    requires ComesFrom(init, g) && (f.id == g.id ==> f.time <= g.time)
    ensures ComesFrom(init + [f], g)
  {
    var i :| 0 <= i < |init| && init[i] == g && IsLatest(init, i);
    assert IsLatest(init + [f], i);
  }

  lemma LaterTakesOver(init: seq<ObservedFolder>, f: ObservedFolder, m: map<string, ObservedFolder>)
    requires forall g :: g in init ==> g.id in m
    requires f.id in m ==> m[f.id].id == f.id && ComesFrom(init, m[f.id]) && m[f.id].time < f.time
    ensures ComesFrom(init + [f], f)
  {
    var input := init + [f];
    if f.id in m {
      var i :| 0 <= i < |init| && init[i] == m[f.id] && IsLatest(init, i);
      assert forall k :: 0 <= k < |init| && init[k].id == f.id ==> init[k].time <= init[i].time;
    }
    forall k | 0 <= k < |init| && input[k].id == f.id ensures input[k].time < f.time {
      assert init[k] in init;
    }
    assert IsLatest(input, |init|);
  }

  method DeduplicateObservedFoldersToMap(input: seq<ObservedFolder>) returns (output: map<string, ObservedFolder>)
    ensures output == Latest(input)
  {
    output := map[];
    for i := 0 to |input|
      invariant output == Latest(input[..i])
    {
      assert input[..i + 1][..i] == input[..i];
      var f := input[i];
      if f.id !in output || output[f.id].time < f.time {
        output := output[f.id := f];
      }
    }
    assert input[..|input|] == input;
  }

  /** The list has the entries of the map, each once. */
  ghost predicate Lists(r: seq<ObservedFolder>, m: map<string, ObservedFolder>) {
    && (forall i, j :: 0 <= i < j < |r| ==> r[i].id != r[j].id)
    && (forall f :: f in r <==> f.id in m && m[f.id] == f)
  }

  method SortedObservedFolderSlice(input: map<string, ObservedFolder>) returns (output: seq<ObservedFolder>)
    requires forall id :: id in input ==> input[id].id == id
    ensures Lists(output, input) && Sorting.Sorted(output, ObservedLe)
  {
    var keys := Sorting.Elements(input.Keys);
    assert forall id :: id in keys <==> id in multiset(keys);
    output := [];
    for i := 0 to |keys|
      invariant |output| == i
      invariant forall k :: 0 <= k < i ==> keys[k] in input && output[k] == input[keys[k]]
    {
      assert keys[i] in keys;
      output := output + [input[keys[i]]];
    }
    KeysList(input, keys, output);
    ghost var unsorted := output;
    output := Sorting.SortFunc(output, ObservedLe);
    PermutationLists(unsorted, output, input);
  }

  lemma KeysList(input: map<string, ObservedFolder>, keys: seq<string>, output: seq<ObservedFolder>)
    requires forall id :: id in input ==> input[id].id == id
    requires multiset(keys) == multiset(input.Keys) && |output| == |keys|
    requires forall k :: 0 <= k < |keys| ==> keys[k] in input && output[k] == input[keys[k]]
    ensures Lists(output, input)
  {
    forall i, j | 0 <= i < j < |output| ensures output[i].id != output[j].id {
      Sorting.TwiceMeansTwo(keys, i, j);
    }
    forall f: ObservedFolder | f.id in input && input[f.id] == f ensures f in output {
      assert f.id in multiset(keys);
      var k :| 0 <= k < |keys| && keys[k] == f.id;
      assert output[k] == f;
    }
  }

  lemma PermutationLists(a: seq<ObservedFolder>, b: seq<ObservedFolder>, m: map<string, ObservedFolder>)
    requires Lists(a, m) && multiset(a) == multiset(b)
    ensures Lists(b, m)
  {
    Sorting.SameElements(a, b);
    forall i, j | 0 <= i < j < |b| ensures b[i].id != b[j].id {
      assert b[i] in b && b[j] in b;
      Sorting.TwiceMeansTwo(b, i, j);
      ListedOnce(a, m, b[i]);
    }
  }

  lemma SameEntries(a: seq<ObservedFolder>, b: seq<ObservedFolder>, m: map<string, ObservedFolder>)
    requires Lists(a, m) && Lists(b, m)
    ensures multiset(a) == multiset(b)
  {
    forall f ensures multiset(a)[f] == multiset(b)[f] {
      ListedOnce(a, m, f);
      ListedOnce(b, m, f);
    }
  }

  lemma ListedOnce(a: seq<ObservedFolder>, m: map<string, ObservedFolder>, f: ObservedFolder)
    requires Lists(a, m)
    ensures multiset(a)[f] == if f.id in m && m[f.id] == f then 1 else 0
  {
    if f in a {
      var k :| 0 <= k < |a| && a[k] == f;
      Sorting.OccursOnce(a, k);
    }
  }

  lemma LatestOfList(r: seq<ObservedFolder>, m: map<string, ObservedFolder>)
    requires Lists(r, m) && forall id :: id in m ==> m[id].id == id
    ensures Latest(r) == m
  {
    LatestIs(r);
    hide Latest;
    forall id | id in m ensures id in Latest(r) {
      assert m[id] in r;
    }
    forall id | id in Latest(r) ensures id in m && Latest(r)[id] == m[id] {
      assert ComesFrom(r, Latest(r)[id]);
    }
  }

  // ---------- The device ----------

  function OrDynamic(addresses: seq<string>): seq<string> {
    if addresses == [] || addresses == [""] then ["dynamic"] else addresses
  }

  ghost function AsSet(s: seq<string>): set<string> {
    set id | id in s
  }

  /** The device ignores those folders that it has ignored last and that are not shared with it,
      sorted by time; and one that is not trusted neither introduces others nor has its folders
      accepted without asking. */
  ghost predicate IsPreparedDevice(d: Device, r: Device, shared: set<string>) {
    && r == d.(addresses := OrDynamic(d.addresses), ignoredFolders := r.ignoredFolders,
               introducer := d.introducer && !d.untrusted, autoAcceptFolders := d.autoAcceptFolders && !d.untrusted)
    && Lists(r.ignoredFolders, Latest(d.ignoredFolders) - shared)
    && Sorting.Sorted(r.ignoredFolders, ObservedLe)
  }

  method PrepareDevice(d: Device, sharedFolders: seq<string>) returns (r: Device)
    ensures IsPreparedDevice(d, r, AsSet(sharedFolders))
  {
    r := d;
    if |r.addresses| == 0 || (|r.addresses| == 1 && r.addresses[0] == "") {
      r := r.(addresses := ["dynamic"]);
    }
    var ignored := DeduplicateObservedFoldersToMap(d.ignoredFolders);
    for i := 0 to |sharedFolders|
      invariant ignored == Latest(d.ignoredFolders) - AsSet(sharedFolders[..i])
    {
      ignored := ignored - {sharedFolders[i]};
      assert sharedFolders[..i + 1] == sharedFolders[..i] + [sharedFolders[i]];
      assert AsSet(sharedFolders[..i + 1]) == AsSet(sharedFolders[..i]) + {sharedFolders[i]};
    }
    assert sharedFolders[..|sharedFolders|] == sharedFolders;
    LatestIs(d.ignoredFolders);
    var sorted := SortedObservedFolderSlice(ignored);
    r := r.(ignoredFolders := sorted);
    if d.untrusted {
      if r.introducer {
        r := r.(introducer := false);
      }
      if r.autoAcceptFolders {
        r := r.(autoAcceptFolders := false);
      }
    }
  }

  /** Preparing a device a second time, with the same folders shared, leaves it as it is, except
      that folders ignored at the same time may change places. */
  lemma PreparedDeviceStays(d: Device, r: Device, r': Device, shared: set<string>)
    requires IsPreparedDevice(d, r, shared) && IsPreparedDevice(r, r', shared)
    ensures r' == r.(ignoredFolders := r'.ignoredFolders) && multiset(r'.ignoredFolders) == multiset(r.ignoredFolders)
  {
    var m := Latest(d.ignoredFolders) - shared;
    LatestIs(d.ignoredFolders);
    hide Latest;
    LatestOfList(r.ignoredFolders, m);
    assert m - shared == m;
    SameEntries(r.ignoredFolders, r'.ignoredFolders, m);
  }

  // ---------- Deprecated protocols ----------

  /** What the scheme of an address is, if it can be parsed. */
  type Schemes = string -> Option<string>

  predicate IsDeprecated(scheme: Schemes, prefix: string, address: string) {
    scheme(address).Some? && prefix <= scheme(address).value
  }

  function NotDeprecated(scheme: Schemes, prefix: string): string -> bool {
    address => !IsDeprecated(scheme, prefix, address)
  }

  method FilterURLSchemePrefix(list: seq<string>, scheme: Schemes, prefix: string) returns (addrs: seq<string>)
    ensures addrs == Filter(list, NotDeprecated(scheme, prefix))
  {
    addrs := list;
    var i := 0;
    ghost var done := 0;
    while i < |addrs|
      invariant 0 <= i <= |addrs| && 0 <= done <= |list|
      invariant addrs[..i] == Filter(list[..done], NotDeprecated(scheme, prefix))
      invariant addrs[i..] == list[done..]
      decreases |list| - done
    {
      assert addrs[i] == addrs[i..][0] && addrs[i] == list[done];
      assert addrs[i + 1..] == addrs[i..][1..];
      FilterStep(list, NotDeprecated(scheme, prefix), done);
      var uri := scheme(addrs[i]);
      if uri.Some? && prefix <= uri.value {
        addrs := addrs[..i] + addrs[i + 1..];
        i := i - 1;
      }
      i := i + 1;
      done := done + 1;
    }
    assert list[..done] == list;
  }

  ghost function Addresses(scheme: Schemes, addresses: seq<string>): seq<string> {
    Filter(OrDynamic(addresses), NotDeprecated(scheme, "kcp"))
  }

  lemma NothingToRemove(scheme: Schemes, addresses: seq<string>)
    requires !IsDeprecated(scheme, "kcp", "dynamic")
    requires forall a :: a in addresses ==> !IsDeprecated(scheme, "kcp", a)
    ensures Addresses(scheme, addresses) == OrDynamic(addresses)
  {
    FilterKeeps(OrDynamic(addresses), NotDeprecated(scheme, "kcp"));
  }

  /** Some address will be left that is not empty, or at least two will be left. */
  ghost predicate LeavesAddress(scheme: Schemes, addresses: seq<string>) {
    exists i :: 0 <= i < |addresses| && IsUsefulAt(scheme, addresses, i)
  }

  ghost predicate IsUsefulAt(scheme: Schemes, addresses: seq<string>, i: nat)
    requires i < |addresses|
  {
    !IsDeprecated(scheme, "kcp", addresses[i]) && (addresses[i] != "" || IsOtherLeft(scheme, addresses, i))
  }

  ghost predicate IsOtherLeft(scheme: Schemes, addresses: seq<string>, i: nat) {
    exists j :: 0 <= j < |addresses| && j != i && !IsDeprecated(scheme, "kcp", addresses[j])
  }

  lemma {:induction false} LeftOnlyEmpty(scheme: Schemes, addresses: seq<string>)
    ensures LeavesAddress(scheme, addresses) <==> Filter(addresses, NotDeprecated(scheme, "kcp")) !in {[], [""]}
    ensures (exists i :: 0 <= i < |addresses| && !IsDeprecated(scheme, "kcp", addresses[i])) <==>
            Filter(addresses, NotDeprecated(scheme, "kcp")) != []
  {
    if addresses != [] {
      var init, a := addresses[..|addresses| - 1], addresses[|addresses| - 1];
      var left := Filter(init, NotDeprecated(scheme, "kcp"));
      LeftOnlyEmpty(scheme, init);
      OneMoreAddress(scheme, init, a, left);
      assert addresses == init + [a];
    }
  }

  lemma OneMoreAddress(scheme: Schemes, init: seq<string>, a: string, left: seq<string>)
    requires LeavesAddress(scheme, init) <==> left !in {[], [""]}
    requires (exists i :: 0 <= i < |init| && !IsDeprecated(scheme, "kcp", init[i])) <==> left != []
    ensures var now := left + if IsDeprecated(scheme, "kcp", a) then [] else [a];
            && (LeavesAddress(scheme, init + [a]) <==> now !in {[], [""]})
            && ((exists i :: 0 <= i < |init + [a]| && !IsDeprecated(scheme, "kcp", (init + [a])[i])) <==> now != [])
  {
    hide IsDeprecated;
    var addresses := init + [a];
    var n := |init|;
    assert addresses[n] == a && forall i :: 0 <= i < n ==> addresses[i] == init[i];
    if IsDeprecated(scheme, "kcp", a) {
      forall i | 0 <= i < n ensures IsOtherLeft(scheme, addresses, i) <==> IsOtherLeft(scheme, init, i) {
        if IsOtherLeft(scheme, init, i) {
          var j :| 0 <= j < n && j != i && !IsDeprecated(scheme, "kcp", init[j]);
          assert !IsDeprecated(scheme, "kcp", addresses[j]);
        }
      }
      assert forall i :: 0 <= i < n ==> (IsUsefulAt(scheme, addresses, i) <==> IsUsefulAt(scheme, init, i));
      assert !IsUsefulAt(scheme, addresses, n) && left + [] == left;
    } else if left == [] {
      assert !IsOtherLeft(scheme, addresses, n);
      assert IsUsefulAt(scheme, addresses, n) <==> a != "";
      assert left + [a] == [a] && [a][0] == a;
    } else {
      var i :| 0 <= i < n && !IsDeprecated(scheme, "kcp", init[i]);
      assert !IsDeprecated(scheme, "kcp", addresses[i]);
      assert IsOtherLeft(scheme, addresses, n);
      assert IsUsefulAt(scheme, addresses, n) && |left + [a]| > 1;
    }
  }

  lemma AddressesLeft(scheme: Schemes, addresses: seq<string>)
    ensures forall a :: a in Addresses(scheme, addresses) ==> !IsDeprecated(scheme, "kcp", a)
    ensures LeavesAddress(scheme, OrDynamic(addresses)) <==> Addresses(scheme, addresses) !in {[], [""]}
  {
    FilterKeeps(OrDynamic(addresses), NotDeprecated(scheme, "kcp"));
    LeftOnlyEmpty(scheme, OrDynamic(addresses));
    hide LeavesAddress;
    hide IsDeprecated;
    hide OrDynamic;
  }

  /** The default address is filled in before deprecated ones are removed. Preparing the addresses
      again changes nothing exactly if some address other than an empty one, or two addresses, are
      not deprecated. From the second time on nothing changes any more. */
  lemma AddressesSettle(scheme: Schemes, addresses: seq<string>)
    requires !IsDeprecated(scheme, "kcp", "dynamic")
    ensures var once := Addresses(scheme, addresses);
            Addresses(scheme, once) == once <==> LeavesAddress(scheme, OrDynamic(addresses))
    ensures var twice := Addresses(scheme, Addresses(scheme, addresses));
            Addresses(scheme, twice) == twice
  {
    var once := Addresses(scheme, addresses);
    AddressesLeft(scheme, addresses);
    hide Addresses;
    hide LeavesAddress;
    hide IsDeprecated;
    NothingToRemove(scheme, once);
    NothingToRemove(scheme, OrDynamic(once));
  }

  // ---------- What a prepared device is ----------

  /** Nothing but these fields is changed: a device without addresses gets the default one; it ignores what
      it ignored before and what is not shared with it, each folder once, in the order of time; and
      an untrusted one loses its rights, while any other keeps them. */
  lemma PreparedDeviceMeans(d: Device, r: Device, shared: set<string>)
    requires IsPreparedDevice(d, r, shared)
    ensures r.id == d.id && r.name == d.name && r.untrusted == d.untrusted
    ensures r.addresses == if d.addresses == [] || d.addresses == [""] then ["dynamic"] else d.addresses
    ensures d.untrusted ==> !r.introducer && !r.autoAcceptFolders
    ensures !d.untrusted ==> r.introducer == d.introducer && r.autoAcceptFolders == d.autoAcceptFolders
    ensures forall g :: g in r.ignoredFolders ==>
              g in d.ignoredFolders && g.id !in shared &&
              forall h :: h in d.ignoredFolders && h.id == g.id ==> h.time <= g.time
    ensures forall g :: g in d.ignoredFolders && g.id !in shared ==> exists h :: h in r.ignoredFolders && h.id == g.id
    ensures forall i, j :: 0 <= i < j < |r.ignoredFolders| ==>
              r.ignoredFolders[i].id != r.ignoredFolders[j].id && r.ignoredFolders[i].time <= r.ignoredFolders[j].time
  {
    LatestIs(d.ignoredFolders);
    hide Latest;
    var m := Latest(d.ignoredFolders);
    forall g | g in r.ignoredFolders
      ensures g in d.ignoredFolders && g.id !in shared
      ensures forall h :: h in d.ignoredFolders && h.id == g.id ==> h.time <= g.time
    {
      assert ComesFrom(d.ignoredFolders, m[g.id]);
      LatestInTime(d.ignoredFolders, g);
    }
    forall g | g in d.ignoredFolders && g.id !in shared ensures exists h :: h in r.ignoredFolders && h.id == g.id {
      assert m[g.id] in r.ignoredFolders;
    }
    forall i, j | 0 <= i < j < |r.ignoredFolders|
      ensures r.ignoredFolders[i].id != r.ignoredFolders[j].id && r.ignoredFolders[i].time <= r.ignoredFolders[j].time
    {
      assert ObservedLe(r.ignoredFolders[i], r.ignoredFolders[j]);
    }
  }

  lemma LatestInTime(input: seq<ObservedFolder>, g: ObservedFolder)
    requires ComesFrom(input, g)
    ensures g in input && forall h :: h in input && h.id == g.id ==> h.time <= g.time
    ensures exists i :: 0 <= i < |input| && input[i] == g &&
              forall k :: 0 <= k < i && input[k].id == g.id ==> input[k].time < g.time
  {
    var i :| 0 <= i < |input| && input[i] == g && IsLatest(input, i);
    forall h | h in input && h.id == g.id ensures h.time <= g.time {
      var k :| 0 <= k < |input| && input[k] == h;
    }
  }

  /** Of the addresses those are left whose scheme does not begin with "kcp", as often as they were there. */
  lemma AddressesMean(scheme: Schemes, addresses: seq<string>, a: string)
    ensures var given := if addresses == [] || addresses == [""] then ["dynamic"] else addresses;
            multiset(Addresses(scheme, addresses))[a] ==
            if scheme(a).Some? && "kcp" <= scheme(a).value then 0 else multiset(given)[a]
  {
    FilterCounts(OrDynamic(addresses), NotDeprecated(scheme, "kcp"), a);
    hide Filter;
  }
}
