/** The backup of projects to Dropbox (cmd/vidsync/backup.go). A pass over the index of a
    folder uploads what changed and sends the differences from the last manifest to the
    backend; teammates pull what the backend lists. Uploads and syncs may fail at any time.

    Contents are represented by their content key, the hash of their blocks: a key stands for
    the bytes that have it. */
module Backup {
  import opened Wrappers

  type FolderID = string
  type Name = string
  type Key = string
  type Manifest = map<Name, Key>

  // ---------- Which files take part ----------

  predicate HasPrefix(s: string, prefix: string) {
    prefix <= s
  }

  predicate HasSuffix(s: string, suffix: string) {
    |suffix| <= |s| && s[|s| - |suffix|..] == suffix
  }

  predicate Contains(s: string, sub: string) {
    exists i :: 0 <= i <= |s| - |sub| && s[i..][..|sub|] == sub
  }

  function TrimSlashes(p: string): string {
    if p != "" && p[|p| - 1] == '/' then TrimSlashes(p[..|p| - 1]) else p
  }

  function AfterLastSlash(p: string): string {
    if p == "" then ""
    else if p[|p| - 1] == '/' then ""
    else AfterLastSlash(p[..|p| - 1]) + [p[|p| - 1]]
  }

  function Base(p: string): string {
    if p == "" then "."
    else if TrimSlashes(p) == "" then "/"
    else AfterLastSlash(TrimSlashes(p))
  }

  /** A path without elements. */
  lemma {:induction false} BaseOfNothing(p: string)
    requires forall c :: c in p ==> c == '/'
    ensures TrimSlashes(p) == "" && Base(p) == if p == "" then "." else "/"
  {
    if p != "" {
      var init := p[..|p| - 1];
      assert p == init + [p[|p| - 1]] && p[|p| - 1] in p;
      forall c | c in init ensures c == '/' {
        assert c in p;
      }
      BaseOfNothing(init);
    }
  }

  /** The last element of a path is its base, whatever directory it is in. */
  lemma {:induction false} BaseOfFile(dir: string, base: string)
    requires base != "" && '/' !in base
    ensures Base(dir + "/" + base) == base
    ensures Base(base) == base
  {
    AfterLastSlashOfFile(dir + "/", base);
    AfterLastSlashOfFile("", base);
    assert "" + base == base;
    assert dir + "/" + base == (dir + "/") + base;
  }

  lemma {:induction false} AfterLastSlashOfFile(dir: string, base: string)
    requires '/' !in base
    requires dir == "" || dir[|dir| - 1] == '/'
    ensures AfterLastSlash(dir + base) == base
  {
    if base == "" {
      assert dir + base == dir;
    } else {
      var n := |base| - 1;
      assert base == base[..n] + [base[n]];
      assert (dir + base)[..|dir + base| - 1] == dir + base[..n];
      AfterLastSlashOfFile(dir, base[..n]);
    }
  }

  predicate BackupSkipName(name: Name) {
    || name == ".stfolder" || name == ".vidsync"
    || HasPrefix(name, ".stversions/") || Contains(name, "/.stversions/")
    || (HasPrefix(Base(name), ".syncthing.") && HasSuffix(Base(name), ".tmp"))
  }

  datatype FileInfo = FileInfo(
    name: Name,
    key: Key,
    isDirectory: bool,
    isSymlink: bool,
    isInvalid: bool,
    isDeleted: bool)

  predicate Eligible(fi: FileInfo) {
    !(fi.isDirectory || fi.isSymlink || fi.isInvalid || BackupSkipName(fi.name)) && !fi.isDeleted
  }

  // ---------- One pass ----------

  /** A file from the index together with what comes of its upload, should one be tried: the
      key of the bytes that were committed, or nothing when it failed. */
  datatype Entry = Entry(fi: FileInfo, upload: Option<Key>)

  /** How the iteration over the index ends. */
  datatype Stop = Complete | IteratorFails | Cancelled

  datatype Material = Put(path: Name, key: Key) | Tombstone(path: Name)

  function Lookup(m: Manifest, name: Name): Key {
    if name in m then m[name] else ""
  }

  ghost predicate DistinctNames(entries: seq<Entry>) {
    forall i, j :: 0 <= i < j < |entries| ==> entries[i].fi.name != entries[j].fi.name
  }

  ghost function Present(entries: seq<Entry>): set<Name> {
    if entries == [] then {} else
      var e := entries[|entries| - 1];
      Present(entries[..|entries| - 1]) + if Eligible(e.fi) then {e.fi.name} else {}
  }

  ghost predicate Uploaded(prior: Manifest, e: Entry) {
    Eligible(e.fi) && Lookup(prior, e.fi.name) != e.fi.key && e.upload.Some?
  }

  /** The manifest after the entries were processed: the new key of what is unchanged or was
      uploaded, the old one of what could not be uploaded. */
  ghost function PassManifest(prior: Manifest, entries: seq<Entry>): Manifest {
    if entries == [] then map[] else
      var m, e := PassManifest(prior, entries[..|entries| - 1]), entries[|entries| - 1];
      if !Eligible(e.fi) then m
      else if Lookup(prior, e.fi.name) == e.fi.key || e.upload.Some? then m[e.fi.name := e.fi.key]
      else if e.fi.name in prior then m[e.fi.name := prior[e.fi.name]]
      else m
  }

  ghost function PassPuts(prior: Manifest, entries: seq<Entry>): seq<Material> {
    if entries == [] then [] else
      var e := entries[|entries| - 1];
      PassPuts(prior, entries[..|entries| - 1]) + if Uploaded(prior, e) then [Put(e.fi.name, e.fi.key)] else []
  }

  /** What the backend makes of a list of materials. */
  ghost function ApplyMaterials(live: Manifest, mats: seq<Material>): Manifest {
    if mats == [] then live else
      var before, m := ApplyMaterials(live, mats[..|mats| - 1]), mats[|mats| - 1];
      if m.Put? then before[m.path := m.key] else before - {m.path}
  }

  ghost predicate AreTombstonesOf(mats: seq<Material>, gone: set<Name>) {
    forall m :: m in mats <==> m.Tombstone? && m.path in gone
  }

  /** Files without a content key that the old manifest does not list: looking them up gives
      the empty key, so they pass for unchanged although they were never backed up. */
  ghost function Phantoms(prior: Manifest, entries: seq<Entry>): set<Name> {
    if entries == [] then {} else
      var e := entries[|entries| - 1];
      Phantoms(prior, entries[..|entries| - 1]) + if IsPhantom(prior, e) then {e.fi.name} else {}
  }

  ghost predicate IsPhantom(prior: Manifest, e: Entry) {
    Eligible(e.fi) && e.fi.key == "" && e.fi.name !in prior
  }

  lemma {:induction false} NamesOfEntries(prior: Manifest, entries: seq<Entry>)
    ensures forall n :: n in Present(entries) <==> exists e :: e in entries && Eligible(e.fi) && e.fi.name == n
    ensures forall n :: n in Phantoms(prior, entries) <==>
        exists e :: e in entries && IsPhantom(prior, e) && e.fi.name == n
  {
    if entries != [] {
      var init, e := entries[..|entries| - 1], entries[|entries| - 1];
      assert entries == init + [e];
      NamesOfEntries(prior, init);
    }
  }

  lemma ApplyOne(live: Manifest, mats: seq<Material>, m: Material)
    ensures ApplyMaterials(live, mats + [m]) ==
            if m.Put? then ApplyMaterials(live, mats)[m.path := m.key] else ApplyMaterials(live, mats) - {m.path}
  {
    assert (mats + [m])[..|mats|] == mats;
  }

  lemma ApplyTombstones(live: Manifest, puts: seq<Material>, tombs: seq<Material>, gone: set<Name>)
    requires AreTombstonesOf(tombs, gone)
    ensures ApplyMaterials(live, puts + tombs) == ApplyMaterials(live, puts) - gone
  {
    TombstonesRemove(live, puts, tombs);
    assert PathsOf(tombs) == gone by {
      forall n | n in gone ensures n in PathsOf(tombs) {
        assert Tombstone(n) in tombs;
      }
    }
  }

  ghost function PathsOf(mats: seq<Material>): set<Name> {
    set m | m in mats :: m.path
  }

  lemma {:induction false} TombstonesRemove(live: Manifest, puts: seq<Material>, tombs: seq<Material>)
    requires forall m :: m in tombs ==> m.Tombstone?
    ensures ApplyMaterials(live, puts + tombs) == ApplyMaterials(live, puts) - PathsOf(tombs)
  {
    if tombs == [] {
      assert puts + tombs == puts;
      assert PathsOf(tombs) == {};
    } else {
      var init, last := tombs[..|tombs| - 1], tombs[|tombs| - 1];
      assert tombs == init + [last];
      TombstonesRemove(live, puts, init);
      ApplyOne(live, puts + init, last);
      assert puts + tombs == (puts + init) + [last];
      assert last in tombs;
      assert ApplyMaterials(live, puts + tombs) == ApplyMaterials(live, puts + init) - {last.path};
      RemoveMore(ApplyMaterials(live, puts), PathsOf(init), last.path);
      assert PathsOf(tombs) == PathsOf(init) + {last.path};
    }
  }

  lemma RemoveMore(m: Manifest, names: set<Name>, name: Name)
    ensures m - names - {name} == m - (names + {name})
  {
  }

  /** What the new manifest and the backend say about one name after the entries. */
  ghost predicate SameAt(prior: Manifest, next: Manifest, applied: Manifest, present: set<Name>, phantoms: set<Name>,
      name: Name) {
    if name in phantoms then name in next && next[name] == "" && name !in applied
    else if name in present then (name in next <==> name in applied) && (name in next ==> next[name] == applied[name])
    else name !in next && (name in applied <==> name in prior) && (name in prior ==> applied[name] == prior[name])
  }

  lemma {:induction false} SameEverywhere(prior: Manifest, entries: seq<Entry>, name: Name)
    requires DistinctNames(entries)
    ensures SameAt(prior, PassManifest(prior, entries), ApplyMaterials(prior, PassPuts(prior, entries)),
                   Present(entries), Phantoms(prior, entries), name)
  {
    if entries != [] {
      var init, e := entries[..|entries| - 1], entries[|entries| - 1];
      assert entries == init + [e];
      SameEverywhere(prior, init, name);
      assert e.fi.name !in Present(init) && e.fi.name !in Phantoms(prior, init) by { NamesOfEntries(prior, init); }
      if Uploaded(prior, e) {
        ApplyOne(prior, PassPuts(prior, init), Put(e.fi.name, e.fi.key));
      } else {
        assert PassPuts(prior, entries) == PassPuts(prior, init);
      }
    }
  }

  /** Whatever uploads fail and however the iteration ends: the new manifest is the old one
      with the differences applied, together with the phantoms. */
  lemma ManifestIsOldPlusDeltas(prior: Manifest, entries: seq<Entry>, tombs: seq<Material>)
    requires DistinctNames(entries)
    requires AreTombstonesOf(tombs, prior.Keys - Present(entries))
    ensures PassManifest(prior, entries) ==
            ApplyMaterials(prior, PassPuts(prior, entries) + tombs) + map n | n in Phantoms(prior, entries) :: ""
    ensures ApplyMaterials(prior, PassPuts(prior, entries) + tombs).Keys !! Phantoms(prior, entries)
  {
    var puts, gone := PassPuts(prior, entries), prior.Keys - Present(entries);
    var next, applied := PassManifest(prior, entries), ApplyMaterials(prior, puts);
    ApplyTombstones(prior, puts, tombs, gone);
    NamesOfEntries(prior, entries);
    forall name ensures SameAt(prior, next, applied, Present(entries), Phantoms(prior, entries), name) {
      SameEverywhere(prior, entries, name);
    }
    CombineNames(prior, next, applied, Present(entries), Phantoms(prior, entries));
  }

  lemma CombineNames(prior: Manifest, next: Manifest, applied: Manifest, present: set<Name>, phantoms: set<Name>)
    requires forall name :: SameAt(prior, next, applied, present, phantoms, name)
    requires phantoms !! prior.Keys
    ensures next == (applied - (prior.Keys - present)) + map n | n in phantoms :: ""
    ensures (applied - (prior.Keys - present)).Keys !! phantoms
  {
    var rest := applied - (prior.Keys - present);
    forall name ensures (name in next <==> name in rest || name in phantoms)
      ensures name in rest && name !in phantoms ==> next[name] == rest[name]
      ensures name in phantoms ==> name in next && next[name] == "" && name !in rest
    {
      assert SameAt(prior, next, applied, present, phantoms, name);
    }
  }

  /** Applying the differences to the old manifest gives the new one exactly when every
      eligible file without a content key was listed before. */
  lemma DeltasMakeTheManifest(prior: Manifest, entries: seq<Entry>, tombs: seq<Material>)
    requires DistinctNames(entries)
    requires AreTombstonesOf(tombs, prior.Keys - Present(entries))
    ensures ApplyMaterials(prior, PassPuts(prior, entries) + tombs) == PassManifest(prior, entries) <==>
            forall e :: e in entries && Eligible(e.fi) && e.fi.key == "" ==> e.fi.name in prior
  {
    ManifestIsOldPlusDeltas(prior, entries, tombs);
    NamesOfEntries(prior, entries);
    if forall e :: e in entries && Eligible(e.fi) && e.fi.key == "" ==> e.fi.name in prior {
      assert Phantoms(prior, entries) == {};
    } else {
      var e :| e in entries && Eligible(e.fi) && e.fi.key == "" && e.fi.name !in prior;
      assert IsPhantom(prior, e);
      assert e.fi.name in Phantoms(prior, entries);
    }
  }

  // ---------- The manager and its surroundings ----------

  datatype Target = Target(folderID: FolderID, folderPath: string, appFolderPath: string, deviceID: string)

  /** What is written to disk. */
  datatype Persisted = Persisted(targets: map<FolderID, Target>, manifests: map<FolderID, Manifest>)

  /** The manager's memory and disk, the backend's live materials, and the content keys of the
      files in the Dropbox directory of each folder. */
  datatype State = State(
    targets: map<FolderID, Target>,
    manifests: map<FolderID, Manifest>,
    stored: Persisted,
    live: map<FolderID, Manifest>,
    dropbox: map<FolderID, Manifest>)

  function Of(manifests: map<FolderID, Manifest>, f: FolderID): Manifest {
    if f in manifests then manifests[f] else map[]
  }

  /** Every upload overwrites the file, whatever becomes of the rest of the pass. */
  ghost function DropboxAfter(files: Manifest, prior: Manifest, entries: seq<Entry>): Manifest {
    if entries == [] then files else
      var d, e := DropboxAfter(files, prior, entries[..|entries| - 1]), entries[|entries| - 1];
      if Uploaded(prior, e) then d[e.fi.name := e.upload.value] else d
  }

  /** A directory comes into being with its first file. */
  ghost function SetFiles(dropbox: map<FolderID, Manifest>, f: FolderID, files: Manifest): (r: map<FolderID, Manifest>)
    ensures Of(r, f) == files
    ensures forall g :: g != f ==> Of(r, g) == Of(dropbox, g)
  {
    if files == Of(dropbox, f) then dropbox else dropbox[f := files]
  }

  /** What becomes of an entry in the loop over the index. */
  datatype Outcome = NotEligible | Unchanged | Failed | Committed

  ghost function OutcomeOf(prior: Manifest, e: Entry): (outcome: Outcome)
    ensures outcome.Committed? <==> Uploaded(prior, e)
    ensures outcome.Committed? ==> e.upload.Some?
  {
    if !Eligible(e.fi) then NotEligible
    else if Lookup(prior, e.fi.name) == e.fi.key then Unchanged
    else if e.upload.None? then Failed
    else Committed
  }

  /** What one more entry adds to each of the results of a pass. */
  lemma EntryStep(files: Manifest, prior: Manifest, entries: seq<Entry>, i: nat)
    requires i < |entries|
    ensures var e, init, next := entries[i], entries[..i], entries[..i + 1];
            var m, d := PassManifest(prior, init), DropboxAfter(files, prior, init);
            match OutcomeOf(prior, e)
            case NotEligible =>
              && Present(next) == Present(init) && PassPuts(prior, next) == PassPuts(prior, init)
              && DropboxAfter(files, prior, next) == d && PassManifest(prior, next) == m
            case Unchanged =>
              && Present(next) == Present(init) + {e.fi.name} && PassPuts(prior, next) == PassPuts(prior, init)
              && DropboxAfter(files, prior, next) == d && PassManifest(prior, next) == m[e.fi.name := e.fi.key]
            case Failed =>
              && Present(next) == Present(init) + {e.fi.name} && PassPuts(prior, next) == PassPuts(prior, init)
              && DropboxAfter(files, prior, next) == d
              && PassManifest(prior, next) == (if e.fi.name in prior then m[e.fi.name := prior[e.fi.name]] else m)
            case Committed =>
              && Present(next) == Present(init) + {e.fi.name}
              && PassPuts(prior, next) == PassPuts(prior, init) + [Put(e.fi.name, e.fi.key)]
              && DropboxAfter(files, prior, next) == d[e.fi.name := e.upload.value]
              && PassManifest(prior, next) == m[e.fi.name := e.fi.key]
  {
    assert entries[..i + 1][..i] == entries[..i];
    hide Eligible;
    hide Lookup;
  }

  ghost predicate NoDeltas(prior: Manifest, entries: seq<Entry>) {
    PassPuts(prior, entries) == [] && prior.Keys <= Present(entries)
  }

  /** The effect of a pass: what was uploaded stays uploaded, the rest happens only when the
      pass is not cancelled and the backend accepts the differences. */
  ghost function PassState(s: State, f: FolderID, entries: seq<Entry>, stop: Stop, synced: bool): State {
    var prior := Of(s.manifests, f);
    var next := PassManifest(prior, entries);
    var s' := s.(dropbox := SetFiles(s.dropbox, f, DropboxAfter(Of(s.dropbox, f), prior, entries)));
    if stop.Cancelled? then s'
    else if NoDeltas(prior, entries) then s'.(manifests := s.manifests[f := next])
    else if !synced then s'
    else
      var live := ApplyMaterials(Of(s.live, f), PassPuts(prior, entries)) - (prior.Keys - Present(entries));
      s'.(manifests := s.manifests[f := next],
          stored := Persisted(s.targets, s.manifests[f := next]),
          live := s.live[f := live])
  }

  class Cloud {
    var live: map<FolderID, Manifest>
    var dropbox: map<FolderID, Manifest>

    constructor ()
      ensures live == map[] && dropbox == map[]
    {
      live, dropbox := map[], map[];
    }

    /** A rejected request has no effect. */
    method PutMaterials(f: FolderID, mats: seq<Material>, accepted: bool)
      modifies this`live
      ensures live == if accepted then old(live)[f := ApplyMaterials(Of(old(live), f), mats)] else old(live)
    {
      if !accepted {
        return;
      }
      var m := Of(live, f);
      for i := 0 to |mats|
        invariant live == old(live) && m == ApplyMaterials(Of(live, f), mats[..i])
      {
        ApplyOne(Of(live, f), mats[..i], mats[i]);
        assert mats[..i + 1] == mats[..i] + [mats[i]];
        m := if mats[i].Put? then m[mats[i].path := mats[i].key] else m - {mats[i].path};
      }
      assert mats[..|mats|] == mats;
      live := live[f := m];
    }
  }

  datatype PassResult = NotReady | PassCancelled | SyncFailed | Finished(failed: bool, fileCount: nat, changed: bool)

  class BackupManager {
    var targets: map<FolderID, Target>
    var manifests: map<FolderID, Manifest>
    var stored: Persisted

    ghost function View(cloud: Cloud): State
      reads this, cloud
    {
      State(targets, manifests, stored, cloud.live, cloud.dropbox)
    }

    constructor (stored: Persisted)
      ensures targets == stored.targets && manifests == stored.manifests && this.stored == stored
    {
      this.stored := stored;
      this.targets := stored.targets;
      this.manifests := stored.manifests;
    }

    method PersistLocked()
      modifies this`stored
      ensures stored == Persisted(targets, manifests)
    {
      stored := Persisted(targets, manifests);
    }

    method AddTarget(t: Target)
      modifies this
      ensures targets == old(targets)[t.folderID := t] && manifests == old(manifests)
      ensures stored == Persisted(targets, manifests)
    {
      targets := targets[t.folderID := t];
      PersistLocked();
    }

    method RemoveTarget(f: FolderID)
      modifies this
      ensures targets == old(targets) - {f} && manifests == old(manifests) - {f}
      ensures stored == Persisted(targets, manifests)
    {
      targets := targets - {f};
      manifests := manifests - {f};
      PersistLocked();
    }

    /** The entries are what the iteration over the index yields before it stops. */
    method BackupTarget(f: FolderID, cloud: Cloud, ready: bool, entries: seq<Entry>, stop: Stop,
        synced: bool) returns (result: PassResult)
      requires DistinctNames(entries)
      modifies this`manifests, this`stored, cloud
      ensures View(cloud) == if ready then PassState(old(View(cloud)), f, entries, stop, synced) else old(View(cloud))
      ensures result.NotReady? <==> !ready
      ensures result.PassCancelled? <==> ready && stop.Cancelled?
      ensures result.Finished? ==> result.fileCount == |Of(manifests, f)|
      ensures result.Finished? ==> (result.changed <==> !NoDeltas(Of(old(manifests), f), entries))
      ensures result.Finished? ==>
                (result.failed <==> stop.IteratorFails? ||
                                    exists e :: e in entries && UploadFails(Of(old(manifests), f), e))
    {
      hide PassState;
      hide PassManifest;
      hide PassPuts;
      hide Present;
      hide DropboxAfter;
      hide SetFiles;
      hide NoDeltas;
      hide ApplyMaterials;
      hide AreTombstonesOf;
      hide UploadFails;
      hide Of;
      if !ready {
        return NotReady;
      }
      ghost var s := View(cloud);
      var prior := Of(manifests, f);
      var newManifest, present, deltas, failed := UploadChanged(f, cloud, prior, entries);
      ghost var puts := deltas;
      var tombs := Tombstones(prior, present);
      PassStateIs(s, f, entries, stop, synced, tombs);
      if stop.Cancelled? {
        return PassCancelled;
      }
      failed := failed || stop.IteratorFails?;
      deltas := deltas + tombs;
      if |deltas| > 0 {
        if !synced {
          return SyncFailed;
        }
        cloud.PutMaterials(f, deltas, true);
        manifests := manifests[f := newManifest];
        PersistLocked();
        OneManifest(s.manifests, f, newManifest);
        return Finished(failed, |newManifest|, true);
      }
      manifests := manifests[f := newManifest];
      OneManifest(s.manifests, f, newManifest);
      return Finished(failed, |newManifest|, false);
    }
  }

  lemma OneManifest(manifests: map<FolderID, Manifest>, f: FolderID, m: Manifest)
    ensures Of(manifests[f := m], f) == m
  {
  }

  /** The effect of a pass in terms of the materials that are sent. */
  lemma PassStateIs(s: State, f: FolderID, entries: seq<Entry>, stop: Stop, synced: bool, tombs: seq<Material>)
    requires AreTombstonesOf(tombs, Of(s.manifests, f).Keys - Present(entries))
    ensures var prior := Of(s.manifests, f);
            var next, mats := PassManifest(prior, entries), PassPuts(prior, entries) + tombs;
            var t := PassState(s, f, entries, stop, synced);
            var u := s.(dropbox := SetFiles(s.dropbox, f, DropboxAfter(Of(s.dropbox, f), prior, entries)));
            && (mats == [] <==> NoDeltas(prior, entries))
            && t == if stop.Cancelled? then u
                    else if mats == [] then u.(manifests := s.manifests[f := next])
                    else if !synced then u
                    else u.(manifests := s.manifests[f := next], stored := Persisted(s.targets, s.manifests[f := next]),
                            live := s.live[f := ApplyMaterials(Of(s.live, f), mats)])
  {
    var prior := Of(s.manifests, f);
    NothingToSend(prior, entries, tombs);
    ApplyTombstones(Of(s.live, f), PassPuts(prior, entries), tombs, prior.Keys - Present(entries));
    hide PassManifest;
    hide PassPuts;
    hide Present;
    hide DropboxAfter;
    hide SetFiles;
    hide NoDeltas;
    hide ApplyMaterials;
  }

  /** Where the loop over the index is after some entries. */
  ghost predicate IsProgress(
      before: map<FolderID, Manifest>, f: FolderID, prior: Manifest, done: seq<Entry>,
      newManifest: Manifest, present: set<Name>, deltas: seq<Material>, dropbox: map<FolderID, Manifest>) {
    && newManifest == PassManifest(prior, done) && present == Present(done) && deltas == PassPuts(prior, done)
    && dropbox == SetFiles(before, f, DropboxAfter(Of(before, f), prior, done))
  }

  ghost predicate AnyFails(prior: Manifest, done: seq<Entry>) {
    exists e :: e in done && UploadFails(prior, e)
  }

  lemma ProgressStep(
      before: map<FolderID, Manifest>, f: FolderID, prior: Manifest, entries: seq<Entry>, i: nat,
      m: Manifest, p: set<Name>, d: seq<Material>, dropbox: map<FolderID, Manifest>)
    requires i < |entries| && IsProgress(before, f, prior, entries[..i], m, p, d, dropbox)
    ensures var e, next := entries[i], entries[..i + 1];
            match OutcomeOf(prior, e)
            case NotEligible => IsProgress(before, f, prior, next, m, p, d, dropbox)
            case Unchanged => IsProgress(before, f, prior, next, m[e.fi.name := e.fi.key], p + {e.fi.name}, d, dropbox)
            case Failed =>
              IsProgress(before, f, prior, next, if e.fi.name in prior then m[e.fi.name := prior[e.fi.name]] else m,
                         p + {e.fi.name}, d, dropbox)
            case Committed =>
              IsProgress(before, f, prior, next, m[e.fi.name := e.fi.key], p + {e.fi.name},
                d + [Put(e.fi.name, e.fi.key)],
                         dropbox[f := Of(dropbox, f)[e.fi.name := e.upload.value]])
  {
    EntryStep(Of(before, f), prior, entries, i);
    WriteFile(before, f, DropboxAfter(Of(before, f), prior, entries[..i]), entries[i].fi.name, entries[i].upload);
    hide PassManifest;
    hide Present;
    hide PassPuts;
    hide DropboxAfter;
    hide SetFiles;
    hide OutcomeOf;
    hide Of;
  }

  lemma FailsStep(prior: Manifest, entries: seq<Entry>, i: nat)
    requires i < |entries|
    ensures AnyFails(prior, entries[..i + 1]) <==> AnyFails(prior, entries[..i]) || UploadFails(prior, entries[i])
  {
    hide UploadFails;
    assert entries[..i + 1] == entries[..i] + [entries[i]];
    assert forall e :: e in entries[..i + 1] <==> e in entries[..i] || e == entries[i];
  }

  /** The loop over the index. */
  method UploadChanged(f: FolderID, cloud: Cloud, prior: Manifest, entries: seq<Entry>)
    returns (newManifest: Manifest, present: set<Name>, deltas: seq<Material>, failed: bool)
    modifies cloud`dropbox
    ensures newManifest == PassManifest(prior, entries)
    ensures present == Present(entries)
    ensures deltas == PassPuts(prior, entries)
    ensures failed <==> exists e :: e in entries && UploadFails(prior, e)
    ensures cloud.dropbox == SetFiles(old(cloud.dropbox), f, DropboxAfter(Of(old(cloud.dropbox), f), prior, entries))
  {
    newManifest, present, deltas, failed := map[], {}, [], false;
    ghost var before := cloud.dropbox;
    NoFiles(before, f);
    assert IsProgress(before, f, prior, entries[..0], newManifest, present, deltas, cloud.dropbox);
    for i := 0 to |entries|
      invariant IsProgress(before, f, prior, entries[..i], newManifest, present, deltas, cloud.dropbox)
      invariant failed <==> AnyFails(prior, entries[..i])
    {
      hide *;
      ProgressStep(before, f, prior, entries, i, newManifest, present, deltas, cloud.dropbox);
      FailsStep(prior, entries, i);
      var name := entries[i].fi.name;
      var outcome := ProcessEntry(entries[i], prior);
      match outcome {
        case NotEligible =>
        case Unchanged =>
          present := present + {name};
          newManifest := newManifest[name := entries[i].fi.key];
        case Failed =>
          present := present + {name};
          failed := true;
          if name in prior {
            newManifest := newManifest[name := prior[name]];
          }
        case Committed =>
          present := present + {name};
          cloud.dropbox := cloud.dropbox[f := Of(cloud.dropbox, f)[name := entries[i].upload.value]];
          newManifest := newManifest[name := entries[i].fi.key];
          deltas := deltas + [Put(name, entries[i].fi.key)];
      }
    }
    assert entries[..|entries|] == entries;
    hide PassManifest;
    hide Present;
    hide PassPuts;
    hide DropboxAfter;
    hide SetFiles;
    hide UploadFails;
  }

  ghost predicate UploadFails(prior: Manifest, e: Entry) {
    Eligible(e.fi) && e.upload.None? && Lookup(prior, e.fi.name) != e.fi.key
  }

  method ProcessEntry(e: Entry, prior: Manifest) returns (outcome: Outcome)
    ensures outcome == OutcomeOf(prior, e)
    ensures outcome.Failed? <==> UploadFails(prior, e)
  {
    if e.fi.isDirectory || e.fi.isSymlink || e.fi.isInvalid || BackupSkipName(e.fi.name) {
      return NotEligible;
    }
    if e.fi.isDeleted {
      return NotEligible;
    }
    if Lookup(prior, e.fi.name) == e.fi.key {
      return Unchanged;
    }
    if e.upload.None? {
      return Failed;
    }
    return Committed;
  }

  lemma NoFiles(dropbox: map<FolderID, Manifest>, f: FolderID)
    ensures SetFiles(dropbox, f, Of(dropbox, f)) == dropbox
  {
  }

  lemma WriteFile(dropbox: map<FolderID, Manifest>, f: FolderID, files: Manifest, name: Name, upload: Option<Key>)
    ensures var d := SetFiles(dropbox, f, files);
            upload.Some? ==>
              d[f := Of(d, f)[name := upload.value]] == SetFiles(dropbox, f, files[name := upload.value])
  {
    if upload.Some? {
      assert name in files[name := upload.value];
      assert files[name := upload.value] == Of(dropbox, f) ==> f in dropbox;
    }
  }

  /** Files we knew about that are gone now, in the order in which the map yields them. */
  method Tombstones(prior: Manifest, present: set<Name>) returns (tombs: seq<Material>)
    ensures AreTombstonesOf(tombs, prior.Keys - present)
  {
    tombs := [];
    var todo := prior.Keys;
    while todo != {}
      invariant todo <= prior.Keys
      invariant AreTombstonesOf(tombs, prior.Keys - present - todo)
    {
      var name :| name in todo;
      if name !in present {
        tombs := tombs + [Tombstone(name)];
      }
      todo := todo - {name};
    }
  }

  lemma NothingToSend(prior: Manifest, entries: seq<Entry>, tombs: seq<Material>)
    requires AreTombstonesOf(tombs, prior.Keys - Present(entries))
    ensures PassPuts(prior, entries) + tombs == [] <==> NoDeltas(prior, entries)
  {
    if tombs == [] {
      forall n | n in prior ensures n in Present(entries) {
        assert Tombstone(n) !in tombs;
      }
    } else {
      assert tombs[0] in tombs;
    }
  }
}
