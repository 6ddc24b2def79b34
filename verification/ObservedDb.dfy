/** Folders that other devices have offered, kept in a store of strings (internal/db/observed.go).
    The device and the folder of an offer make up its key. */
module ObservedDb {
  import opened Wrappers
  import Sorting

  type DeviceID = nat

  const EMPTY_DEVICE_ID: DeviceID := 0

  datatype ObservedFolder = ObservedFolder(time: int, folderLabel: string, receiveEncrypted: bool,
    remoteEncrypted: bool)

  type Store = map<string, string>

  /** How devices and observations are written and read. */
  datatype Codec = Codec(
    encode: DeviceID -> string,
    parse: string -> Option<DeviceID>,
    marshal: ObservedFolder -> string,
    unmarshal: string -> Option<ObservedFolder>)

  ghost predicate NoSlash(s: string) {
    forall i :: 0 <= i < |s| ==> s[i] != '/'
  }

  /** What is written can be read back, and the string of a device ID contains no slash. */
  ghost predicate Works(c: Codec) {
    && (forall d: DeviceID :: c.parse(c.encode(d)) == Some(d) && NoSlash(c.encode(d)))
    && (forall o: ObservedFolder :: c.unmarshal(c.marshal(o)) == Some(o))
  }

  // ---------- Keys ----------

  const PREFIX: string := "folder/"

  function Key(c: Codec, device: DeviceID, id: string): string {
    PREFIX + c.encode(device) + "/" + id
  }

  /** The parts of a string between slashes, as strings.Split gives them. */
  function Split(s: string): (parts: seq<string>)
    ensures |parts| > 0
  {
    if s == "" then [""] else
      var rest := Split(s[1..]);
      if s[0] == '/' then [""] + rest else [[s[0]] + rest[0]] + rest[1..]
  }

  lemma {:induction false} SplitAtFirstSlash(a: string, s: string)
    requires NoSlash(a)
    ensures Split(a + "/" + s) == [a] + Split(s)
  {
    if a == "" {
      assert a + "/" + s == "/" + s && ("/" + s)[1..] == s;
    } else {
      assert (a + "/" + s)[1..] == a[1..] + "/" + s;
      SplitAtFirstSlash(a[1..], s);
      assert [a[0]] + a[1..] == a;
    }
  }

  lemma {:induction false} SplitIsWhole(s: string)
    ensures NoSlash(s) <==> |Split(s)| == 1
    ensures NoSlash(s) ==> Split(s) == [s]
  {
    if s != "" {
      SplitIsWhole(s[1..]);
      assert s == [s[0]] + s[1..];
      assert NoSlash(s) <==> s[0] != '/' && NoSlash(s[1..]);
    }
  }

  /** The key of an offer has three parts exactly if the ID of the folder contains no slash; then
      the parts tell the device and the folder. */
  lemma PartsOfKey(c: Codec, device: DeviceID, id: string)
    requires Works(c)
    ensures |Split(Key(c, device, id))| == 3 <==> NoSlash(id)
    ensures NoSlash(id) ==> Split(Key(c, device, id)) == ["folder", c.encode(device), id]
    ensures PREFIX <= Key(c, device, id)
  {
    var dev := c.encode(device);
    assert NoSlash(dev);
    assert Key(c, device, id) == "folder" + "/" + (dev + "/" + id);
    SplitAtFirstSlash("folder", dev + "/" + id);
    SplitAtFirstSlash(dev, id);
    SplitIsWhole(id);
  }

  lemma SamePartBeforeSlash(a: string, s: string, b: string, t: string)
    requires NoSlash(a) && NoSlash(b) && a + "/" + s == b + "/" + t
    ensures a == b && s == t
  {
    SplitAtFirstSlash(a, s);
    SplitAtFirstSlash(b, t);
    assert a == Split(a + "/" + s)[0] == b;
    assert s == (a + "/" + s)[|a| + 1..] && t == (b + "/" + t)[|b| + 1..];
  }

  /** Different offers have different keys, whatever the folder IDs look like. */
  lemma KeysAreDistinct(c: Codec, d: DeviceID, f: string, d': DeviceID, f': string)
    requires Works(c)
    ensures Key(c, d, f) == Key(c, d', f') <==> d == d' && f == f'
  {
    if Key(c, d, f) == Key(c, d', f') {
      var a, b := c.encode(d), c.encode(d');
      assert a + "/" + f == Key(c, d, f)[|PREFIX|..] && b + "/" + f' == Key(c, d', f')[|PREFIX|..];
      assert NoSlash(a) && NoSlash(b);
      SamePartBeforeSlash(a, f, b, f');
      assert Some(d) == c.parse(a) == Some(d');
    }
  }

  function PrefixOf(c: Codec, device: DeviceID): string {
    if device == EMPTY_DEVICE_ID then PREFIX else PREFIX + c.encode(device) + "/"
  }

  /** The keys of a device are those that begin with its prefix. */
  lemma PrefixSelectsDevice(c: Codec, device: DeviceID, d: DeviceID, f: string)
    requires Works(c)
    ensures PrefixOf(c, device) <= Key(c, d, f) <==> device == EMPTY_DEVICE_ID || device == d
  {
    if device != EMPTY_DEVICE_ID {
      var prefix := PrefixOf(c, device);
      assert forall rest :: prefix + rest == Key(c, device, rest);
      if prefix <= Key(c, d, f) {
        var rest := Key(c, d, f)[|prefix|..];
        assert Key(c, d, f) == prefix + rest;
        KeysAreDistinct(c, d, f, device, rest);
      }
      assert prefix <= prefix + f == Key(c, device, f);
    }
  }

  // ---------- What the operations do to the store ----------

  // The device and the folder an entry is about, and the observation.
  datatype Entry = Entry(device: DeviceID, folder: string, observed: ObservedFolder)

  function EntryOf(c: Codec, key: string, value: string): Option<Entry> {
    var parts := Split(key);
    if |parts| != 3 || c.parse(parts[1]).None? || parts[2] == "" || c.unmarshal(value).None? then None
    else Some(Entry(c.parse(parts[1]).value, parts[2], c.unmarshal(value).value))
  }

  predicate IsInvalid(c: Codec, key: string, value: string) {
    |Split(key)| == 3 && EntryOf(c, key, value).None?
  }

  ghost function WithoutFolder(kv: Store, id: string): Store {
    kv - set k | k in kv && PREFIX <= k && |Split(k)| == 3 && Split(k)[2] == id
  }

  ghost function WithoutInvalid(c: Codec, kv: Store, device: DeviceID): Store {
    kv - set k | k in kv && PrefixOf(c, device) <= k && IsInvalid(c, k, kv[k])
  }

  /** One of the given keys holds the entry. */
  ghost predicate Found(c: Codec, kv: Store, keys: seq<string>, e: Entry) {
    exists k :: k in keys && k in kv && EntryOf(c, k, kv[k]) == Some(e)
  }

  type Listing = map<string, map<DeviceID, ObservedFolder>>

  ghost predicate Lists(c: Codec, kv: Store, keys: seq<string>, res: Listing) {
    && (forall f, d :: f in res && d in res[f] ==> Found(c, kv, keys, Entry(d, f, res[f][d])))
    && (forall e :: Found(c, kv, keys, e) ==> e.folder in res && e.device in res[e.folder])
    && (forall f :: f in res ==> res[f] != map[])
  }

  /** Adds an entry to a listing. */
  function Record(res: Listing, e: Entry): Listing {
    var offeredBy := if e.folder in res then res[e.folder] else map[];
    res[e.folder := offeredBy[e.device := e.observed]]
  }

  lemma OneMoreFound(c: Codec, kv: Store, keys: seq<string>, key: string, e: Entry)
    requires key in kv
    ensures Found(c, kv, keys + [key], e) <==> Found(c, kv, keys, e) || EntryOf(c, key, kv[key]) == Some(e)
  {
    hide EntryOf;
    assert key in keys + [key];
    if Found(c, kv, keys, e) {
      var k :| k in keys && k in kv && EntryOf(c, k, kv[k]) == Some(e);
      assert k in keys + [key];
    }
  }

  lemma OneMoreListed(c: Codec, kv: Store, keys: seq<string>, key: string, res: Listing)
    requires Lists(c, kv, keys, res) && key in kv
    ensures Lists(c, kv, keys + [key],
                  match EntryOf(c, key, kv[key]) case None => res case Some(e) => Record(res, e))
  {
    hide Found;
    hide EntryOf;
    hide Record;
    forall e ensures Found(c, kv, keys + [key], e) <==> Found(c, kv, keys, e) || EntryOf(c, key, kv[key]) == Some(e) {
      OneMoreFound(c, kv, keys, key, e);
    }
    match EntryOf(c, key, kv[key])
    case None =>
    case Some(one) =>
      ListsOneMore(c, kv, keys, key, res, one);
  }

  lemma ListsOneMore(c: Codec, kv: Store, keys: seq<string>, key: string, res: Listing, one: Entry)
    requires Lists(c, kv, keys, res)
    requires forall e :: Found(c, kv, keys + [key], e) <==> Found(c, kv, keys, e) || e == one
    ensures Lists(c, kv, keys + [key], Record(res, one))
  {
    hide Found;
    var res' := Record(res, one);
    assert one.device in res'[one.folder];
    forall f, d | f in res' && d in res'[f] ensures Found(c, kv, keys + [key], Entry(d, f, res'[f][d])) {
      if Entry(d, f, res'[f][d]) != one {
        assert f in res && d in res[f] && res[f][d] == res'[f][d];
      }
    }
  }

  ghost function KeysWith(kv: Store, prefix: string): set<string> {
    set k | k in kv && prefix <= k
  }

  class ObservedDB {
    const codec: Codec
    var kv: Store

    constructor (codec: Codec, kv: Store)
      ensures this.codec == codec && this.kv == kv
    {
      this.codec, this.kv := codec, kv;
    }

    method AddOrUpdatePendingFolder(id: string, of: ObservedFolder, device: DeviceID)
      modifies this
      ensures kv == old(kv)[Key(codec, device, id) := codec.marshal(of)]
    {
      var key := PREFIX + codec.encode(device) + "/" + id;
      kv := kv[key := codec.marshal(of)];
    }

    method RemovePendingFolderForDevice(id: string, device: DeviceID)
      modifies this
      ensures kv == old(kv) - {Key(codec, device, id)}
    {
      var key := PREFIX + codec.encode(device) + "/" + id;
      kv := kv - {key};
    }

    /** The keys with a prefix, in whatever order the store has them. */
    method PrefixKV(prefix: string) returns (keys: seq<string>)
      ensures forall k :: k in keys <==> k in KeysWith(kv, prefix)
    {
      keys := Sorting.Elements(set k | k in kv && prefix <= k);
      assert forall k :: k in keys <==> k in multiset(keys);
    }

    method RemovePendingFolder(id: string)
      modifies this
      ensures kv == WithoutFolder(old(kv), id)
    {
      var keys := PrefixKV(PREFIX);
      ghost var gone: set<string> := {};
      for i := 0 to |keys|
        invariant kv == old(kv) - gone
        invariant forall k :: k in gone <==> k in keys[..i] && |Split(k)| == 3 && Split(k)[2] == id
      {
        var parts := Split(keys[i]);
        if |parts| != 3 || parts[2] != id {
          continue;
        }
        kv := kv - {keys[i]};
        gone := gone + {keys[i]};
      }
      assert keys[..|keys|] == keys;
      assert gone == set k | k in old(kv) && PREFIX <= k && |Split(k)| == 3 && Split(k)[2] == id;
    }

    method PendingFoldersForDevice(device: DeviceID) returns (res: Listing, ghost keys: seq<string>)
      modifies this
      ensures forall k :: k in keys <==> k in KeysWith(old(kv), PrefixOf(codec, device))
      ensures Lists(codec, old(kv), keys, res)
      ensures forall f :: f in res ==> res[f] != map[]
      ensures kv == WithoutInvalid(codec, old(kv), device)
    {
      var prefix := PREFIX;
      if device != EMPTY_DEVICE_ID {
        prefix := prefix + codec.encode(device) + "/";
      }
      res := map[];
      var it := PrefixKV(prefix);
      var entries := kv;
      keys := it;
      ghost var gone: set<string> := {};
      for i := 0 to |it|
        invariant forall k :: k in gone <==> k in it[..i] && k in old(kv) && IsInvalid(codec, k, old(kv)[k])
        invariant kv == old(kv) - gone && entries == old(kv)
        invariant Lists(codec, old(kv), it[..i], res)
      {
        var key := it[i];
        assert it[..i + 1] == it[..i] + [key];
        assert key in it && key in entries;
        var valid := EntryOf(codec, key, entries[key]);
        OneMoreListed(codec, old(kv), it[..i], key, res);
        hide Lists;
        if valid.Some? {
          res := Record(res, valid.value);
        } else if |Split(key)| == 3 {
          kv := kv - {key};
          gone := gone + {key};
        }
      }
      assert it[..|it|] == it;
      assert gone == set k | k in old(kv) && PrefixOf(codec, device) <= k && IsInvalid(codec, k, old(kv)[k]);
    }
  }

  // ---------- The store as a map from pairs ----------

  /** What the store holds for a device and a folder. */
  ghost function Offer(c: Codec, kv: Store, d: DeviceID, f: string): Option<ObservedFolder> {
    if Key(c, d, f) in kv then c.unmarshal(kv[Key(c, d, f)]) else None
  }

  /** All keys of offers were made for a device and a folder, and all values can be read. */
  ghost predicate IsKeyFor(c: Codec, k: string, d: DeviceID, f: string) {
    k == Key(c, d, f)
  }

  ghost predicate WellFormed(c: Codec, kv: Store) {
    forall k :: k in kv && PREFIX <= k ==> c.unmarshal(kv[k]).Some? && exists d, f :: IsKeyFor(c, k, d, f)
  }

  lemma AddSetsOne(c: Codec, kv: Store, id: string, of: ObservedFolder, device: DeviceID, d: DeviceID, f: string)
    requires Works(c)
    ensures Offer(c, kv[Key(c, device, id) := c.marshal(of)], d, f) ==
            if d == device && f == id then Some(of) else Offer(c, kv, d, f)
  {
    KeysAreDistinct(c, d, f, device, id);
  }

  lemma RemoveClearsOne(c: Codec, kv: Store, id: string, device: DeviceID, d: DeviceID, f: string)
    requires Works(c)
    ensures Offer(c, kv - {Key(c, device, id)}, d, f) == if d == device && f == id then None else Offer(c, kv, d, f)
  {
    KeysAreDistinct(c, d, f, device, id);
  }

  /** An ID with a slash in it is never found; any other one is removed for all devices, and nothing
      else is. */
  lemma RemoveFolderClearsOneFolder(c: Codec, kv: Store, id: string, d: DeviceID, f: string)
    requires Works(c)
    ensures Offer(c, WithoutFolder(kv, id), d, f) == if f == id && NoSlash(id) then None else Offer(c, kv, d, f)
  {
    PartsOfKey(c, d, f);
    hide Split;
    hide Key;
  }

  /** Listing removes offers of folders with an empty ID. */
  lemma ListingClearsEmpty(c: Codec, kv: Store, device: DeviceID, d: DeviceID, f: string)
    requires Works(c) && WellFormed(c, kv)
    ensures Offer(c, WithoutInvalid(c, kv, device), d, f) ==
            if f == "" && (device == EMPTY_DEVICE_ID || device == d) then None else Offer(c, kv, d, f)
  {
    PartsOfKey(c, d, f);
    PrefixSelectsDevice(c, device, d, f);
    hide Split;
    hide Key;
    hide PrefixOf;
  }

  lemma OthersAreUntouched(c: Codec, kv: Store, k: string, id: string, device: DeviceID, of: ObservedFolder)
    requires Works(c) && !(PREFIX <= k)
    ensures k in kv[Key(c, device, id) := c.marshal(of)] <==> k in kv
    ensures k in kv ==> kv[Key(c, device, id) := c.marshal(of)][k] == kv[k]
    ensures k in kv - {Key(c, device, id)} <==> k in kv
    ensures k in WithoutFolder(kv, id) <==> k in kv
    ensures k in WithoutInvalid(c, kv, device) <==> k in kv
  {
    PartsOfKey(c, device, id);
    assert PREFIX <= PrefixOf(c, device);
    hide Split;
    hide Key;
  }

  /** The listing is the restriction of this map to one device, or all of it: an offer is listed with
      its observation exactly if the ID of its folder is not empty and contains no slash. */
  lemma ListingIsTheMap(c: Codec, kv: Store, keys: seq<string>, res: Listing, device: DeviceID, d: DeviceID, f: string)
    requires Works(c) && WellFormed(c, kv)
    requires forall k :: k in keys <==> k in KeysWith(kv, PrefixOf(c, device))
    requires Lists(c, kv, keys, res)
    ensures f in res && d in res[f] <==>
            Offer(c, kv, d, f).Some? && f != "" && NoSlash(f) && (device == EMPTY_DEVICE_ID || device == d)
    ensures f in res && d in res[f] ==> Offer(c, kv, d, f) == Some(res[f][d])
  {
    PrefixSelectsDevice(c, device, d, f);
    if f in res && d in res[f] {
      var e := Entry(d, f, res[f][d]);
      assert Found(c, kv, keys, e);
      FoundUnderItsKey(c, kv, keys, device, e);
    }
    if Offer(c, kv, d, f).Some? && f != "" && NoSlash(f) && (device == EMPTY_DEVICE_ID || device == d) {
      OffersAreFound(c, kv, keys, device, d, f);
    }
  }

  lemma OffersAreFound(c: Codec, kv: Store, keys: seq<string>, device: DeviceID, d: DeviceID, f: string)
    requires Works(c) && Offer(c, kv, d, f).Some? && f != "" && NoSlash(f)
    requires device == EMPTY_DEVICE_ID || device == d
    requires forall k :: k in keys <==> k in KeysWith(kv, PrefixOf(c, device))
    ensures Found(c, kv, keys, Entry(d, f, Offer(c, kv, d, f).value))
  {
    PartsOfKey(c, d, f);
    PrefixSelectsDevice(c, device, d, f);
    hide Split;
    hide Key;
    hide PrefixOf;
    var k := Key(c, d, f);
    assert k in keys;
    assert EntryOf(c, k, kv[k]) == Some(Entry(d, f, Offer(c, kv, d, f).value));
  }

  lemma FoundUnderItsKey(c: Codec, kv: Store, keys: seq<string>, device: DeviceID, e: Entry)
    requires Works(c) && WellFormed(c, kv) && Found(c, kv, keys, e)
    requires forall k :: k in keys <==> k in KeysWith(kv, PrefixOf(c, device))
    ensures Key(c, e.device, e.folder) in keys && e.folder != "" && NoSlash(e.folder)
    ensures Offer(c, kv, e.device, e.folder) == Some(e.observed)
  {
    var k :| k in keys && k in kv && EntryOf(c, k, kv[k]) == Some(e);
    assert PREFIX <= PrefixOf(c, device);
    var d, f :| IsKeyFor(c, k, d, f);
    PartsOfKey(c, d, f);
    hide Split;
  }

  // ---------- All sequences of operations ----------

  datatype Operation =
    | Add(id: string, of: ObservedFolder, device: DeviceID)
    | RemoveForDevice(id: string, device: DeviceID)
    | Remove(id: string)
    | List(device: DeviceID)

  ghost function Apply(c: Codec, kv: Store, op: Operation): Store {
    match op
    case Add(id, of, device) => kv[Key(c, device, id) := c.marshal(of)]
    case RemoveForDevice(id, device) => kv - {Key(c, device, id)}
    case Remove(id) => WithoutFolder(kv, id)
    case List(device) => WithoutInvalid(c, kv, device)
  }

  ghost function After(c: Codec, kv: Store, ops: seq<Operation>): Store {
    if ops == [] then kv else Apply(c, After(c, kv, ops[..|ops| - 1]), ops[|ops| - 1])
  }

  /** What a map from pairs of device and folder would hold. */
  ghost function Expected(ops: seq<Operation>, d: DeviceID, f: string): Option<ObservedFolder> {
    if ops == [] then None else
      var before := Expected(ops[..|ops| - 1], d, f);
      match ops[|ops| - 1]
      case Add(id, of, device) => if d == device && f == id then Some(of) else before
      case RemoveForDevice(id, device) => if d == device && f == id then None else before
      case Remove(id) => if f == id then None else before
      case List(device) => before
  }

  ghost predicate Sensible(op: Operation) {
    match op
    case Add(id, _, _) => id != "" && NoSlash(id)
    case _ => true
  }

  lemma ApplyIsWellFormed(c: Codec, kv: Store, op: Operation)
    requires Works(c) && WellFormed(c, kv)
    ensures WellFormed(c, Apply(c, kv, op))
  {
    if op.Add? {
      assert IsKeyFor(c, Key(c, op.device, op.id), op.device, op.id);
    }
    hide Split;
    hide Key;
  }

  /** For folder IDs that are not empty and contain no slash, the store behaves like that map after
      any operations; offers of others are never seen. */
  lemma {:induction false} StoreIsTheMap(c: Codec, kv: Store, ops: seq<Operation>, d: DeviceID, f: string)
    requires Works(c) && (forall k :: k in kv ==> !(PREFIX <= k))
    requires forall i :: 0 <= i < |ops| ==> Sensible(ops[i])
    ensures WellFormed(c, After(c, kv, ops))
    ensures Offer(c, After(c, kv, ops), d, f) == Expected(ops, d, f)
    ensures Expected(ops, d, f).Some? ==> f != "" && NoSlash(f)
  {
    if ops == [] {
      PartsOfKey(c, d, f);
    } else {
      var init, op := ops[..|ops| - 1], ops[|ops| - 1];
      StoreIsTheMap(c, kv, init, d, f);
      var s := After(c, kv, init);
      ApplyIsWellFormed(c, s, op);
      match op {
        case Add(id, of, device) => AddSetsOne(c, s, id, of, device, d, f);
        case RemoveForDevice(id, device) => RemoveClearsOne(c, s, id, device, d, f);
        case Remove(id) => RemoveFolderClearsOneFolder(c, s, id, d, f);
        case List(device) => ListingClearsEmpty(c, s, device, d, f);
      }
      hide Offer;
      hide WellFormed;
    }
  }

  /** What a listing removes from the store, key by key: entries below the prefix with a key of three parts
      whose device cannot be read, whose folder ID is empty or whose value cannot be read. Keys with any
      other number of parts stay. */
  lemma ListingRemoves(c: Codec, kv: Store, device: DeviceID, k: string)
    requires k in kv
    ensures k !in WithoutInvalid(c, kv, device) <==>
            && PrefixOf(c, device) <= k && |Split(k)| == 3
            && (c.parse(Split(k)[1]).None? || Split(k)[2] == "" || c.unmarshal(kv[k]).None?)
    ensures k in WithoutInvalid(c, kv, device) ==> WithoutInvalid(c, kv, device)[k] == kv[k]
    ensures PrefixOf(c, EMPTY_DEVICE_ID) == "folder/"
    ensures device != EMPTY_DEVICE_ID ==> PrefixOf(c, device) == "folder/" + c.encode(device) + "/"
  {
    hide Split;
  }
}
