/** Histories of the backup in which uploads and syncs fail in any way (cmd/vidsync/backup.go): Dropbox
    comes right again as long as no file goes back to contents that it had before. */
module BackupHistory {
  import opened Wrappers
  import opened Backup
  import opened BackupRuns
  import opened BackupFailures

  ghost function KeyOf(entries: seq<Entry>, n: Name): Option<Key> {
    if n in EligiblePart(entries) then Some(EligiblePart(entries)[n]) else None
  }

  /** The keys with which passes have found a file since its folder was enabled. */
  ghost function Seen(events: seq<Event>, f: FolderID, n: Name): set<Key> {
    if events == [] then {} else
      var before := Seen(events[..|events| - 1], f, n);
      match events[|events| - 1]
      case Pass(g, entries, _, _) =>
        if g == f && KeyOf(entries, n).Some? then before + {KeyOf(entries, n).value} else before
      case Disable(g) => if g == f then {} else before
      case _ => before
  }

  /** The one with which a pass found it last. */
  ghost function LastSeen(events: seq<Event>, f: FolderID, n: Name): Option<Key> {
    if events == [] then None else
      var before := LastSeen(events[..|events| - 1], f, n);
      match events[|events| - 1]
      case Pass(g, entries, _, _) => if g == f && KeyOf(entries, n).Some? then KeyOf(entries, n) else before
      case Disable(g) => if g == f then None else before
      case _ => before
  }

  ghost predicate IsOutdated(events: seq<Event>, f: FolderID, n: Name, key: Key) {
    key in Seen(events, f, n) && LastSeen(events, f, n) != Some(key)
  }

  /** A pass finds no file with a key that it had before another one. */
  ghost predicate NothingReturns(events: seq<Event>, f: FolderID, entries: seq<Entry>) {
    forall n :: n in EligiblePart(entries) ==> !IsOutdated(events, f, n, EligiblePart(entries)[n])
  }

  /** Apart from that, any uploads and syncs may fail, and passes may break off. What is committed is what
      the index announces. */
  ghost predicate NeverReturning(events: seq<Event>) {
    events == [] ||
    var init, e := events[..|events| - 1], events[|events| - 1];
    && NeverReturning(init)
    && (e.Pass? ==> FromIndex(e.entries) && HonestUploads(e.entries) && NothingReturns(init, e.f, e.entries))
  }

  /** Dropbox has what the manifest lists, or else the file was found with another key since. */
  ghost predicate FileIsKept(m: Manifest, files: Manifest, events: seq<Event>, f: FolderID, n: Name) {
    n in m ==> n in files && m[n] in Seen(events, f, n) && (files[n] == m[n] || IsOutdated(events, f, n, m[n]))
  }

  lemma {:induction false} FilesSay(files: Manifest, prior: Manifest, entries: seq<Entry>, n: Name)
    requires FromIndex(entries) && HonestUploads(entries)
    ensures var files' := DropboxAfter(files, prior, entries);
            match PutOf(prior, entries, n)
            case Some(key) => Holds(files', n, key) && KeyOf(entries, n) == Some(key)
            case None => (n in files' <==> n in files) && (n in files ==> files'[n] == files[n])
    ensures n in Present(entries) <==> KeyOf(entries, n).Some?
  {
    if entries != [] {
      var init, e := entries[..|entries| - 1], entries[|entries| - 1];
      assert forall x :: x in init ==> x in entries;
      assert e in entries;
      FilesSay(files, prior, init, n);
      if e.fi.name == n {
        NotBefore(prior, entries);
        NoPutBefore(prior, init, n);
      }
    }
  }

  lemma PassKeepsFile(
      events: seq<Event>, f: FolderID, entries: seq<Entry>, stop: Stop, synced: bool,
      m: Manifest, m': Manifest, files: Manifest, n: Name)
    requires FromIndex(entries) && HonestUploads(entries) && NothingReturns(events, f, entries)
    requires FileIsKept(m, files, events, f, n)
    requires m' == m || m' == PassManifest(m, entries)
    ensures FileIsKept(m', DropboxAfter(files, m, entries), events + [Pass(f, entries, stop, synced)], f, n)
  {
    var longer := events + [Pass(f, entries, stop, synced)];
    assert longer[..|events|] == events;
    assert Seen(longer, f, n) == Seen(events, f, n) + if KeyOf(entries, n).Some? then {KeyOf(entries, n).value} else {};
    assert LastSeen(longer, f, n) == if KeyOf(entries, n).Some? then KeyOf(entries, n) else LastSeen(events, f, n);
    FilesSay(files, m, entries, n);
    ManifestSays(m, entries, n);
    hide Seen;
    hide LastSeen;
    hide PassManifest;
    hide DropboxAfter;
    hide EligiblePart;
    hide Present;
    hide PutOf;
  }

  lemma OtherEventKeepsFile(events: seq<Event>, e: Event, f: FolderID, n: Name)
    requires Agree(After(events))
    requires e.Pass? ==> e.f != f
    requires FileIsKept(Of(After(events).manifests, f), Of(After(events).dropbox, f), events, f, n)
    ensures FileIsKept(Of(After(events + [e]).manifests, f), Of(After(events + [e]).dropbox, f), events + [e], f, n)
  {
    OtherEventKeepsRecord(After(events), e, f);
    if e != Disable(f) {
      SeenWithOther(events, e, f, n);
    }
    assert (events + [e])[..|events|] == events;
    hide Next;
    hide Seen;
    hide LastSeen;
    hide Agree;
  }

  lemma OtherEventKeepsRecord(s: State, e: Event, f: FolderID)
    requires Agree(s) && (e.Pass? ==> e.f != f)
    ensures Of(Next(s, e).dropbox, f) == Of(s.dropbox, f)
    ensures Of(Next(s, e).manifests, f) == if e == Disable(f) then map[] else Of(s.manifests, f)
  {
    match e
    case Pass(g, entries, stop, synced) =>
      DropboxOfPass(s, g, entries, stop, synced);
      OtherManifestsStay(s, g, entries, stop, synced);
      hide PassState;
    case Restart =>
      assert Of(s.manifests, f) == Of(s.stored.manifests, f);
    case _ =>
  }

  lemma SeenWithOther(events: seq<Event>, e: Event, f: FolderID, n: Name)
    requires (e.Pass? ==> e.f != f) && e != Disable(f)
    ensures Seen(events + [e], f, n) == Seen(events, f, n) && LastSeen(events + [e], f, n) == LastSeen(events, f, n)
  {
    assert (events + [e])[..|events|] == events;
    hide KeyOf;
  }

  /** After every such history this holds of every file. */
  lemma {:induction false} FilesAreKept(events: seq<Event>, f: FolderID, n: Name)
    requires NeverReturning(events)
    ensures Regular(events)
    ensures FileIsKept(Of(After(events).manifests, f), Of(After(events).dropbox, f), events, f, n)
  {
    if events != [] {
      var init, e := events[..|events| - 1], events[|events| - 1];
      assert events == init + [e];
      FilesAreKept(init, f, n);
      AlwaysAgree(init);
      if e.Pass? && e.f == f {
        PassKeepsAgreement(After(init), f, e.entries, e.stop, e.synced);
        DropboxOfPass(After(init), f, e.entries, e.stop, e.synced);
        var m, m' := Of(After(init).manifests, f), Of(After(events).manifests, f);
        hide PassState;
        hide FileIsKept;
        hide NothingReturns;
        PassKeepsFile(init, f, e.entries, e.stop, e.synced, m, m', Of(After(init).dropbox, f), n);
      } else {
        OtherEventKeepsFile(init, e, f, n);
      }
    }
  }

  /** After any history of failed uploads, failed syncs, broken iterations and restarts in which no file
      goes back to a key it had before, one pass without failures makes the manifest, the disk and
      the backend equal the eligible part of the index, and Dropbox has all of it. */
  lemma NeverReturningConverges(events: seq<Event>, f: FolderID, entries: seq<Entry>)
    requires NeverReturning(events) && NothingReturns(events, f, entries)
    requires FromIndex(entries) && UploadsSucceed(entries)
    ensures var s' := PassState(After(events), f, entries, Complete, true);
            MirrorsIndex(s', f, EligiblePart(entries)) && DropboxHas(s', f, EligiblePart(entries))
  {
    var s, part := After(events), EligiblePart(entries);
    assert Regular(events) by {
      FilesAreKept(events, f, "");
    }
    OnePassConverges(events, f, entries);
    hide PassState;
    hide EligiblePart;
    forall n | n in part && n in Of(s.manifests, f) && Of(s.manifests, f)[n] == part[n]
      ensures Holds(Of(s.dropbox, f), n, part[n])
    {
      FilesAreKept(events, f, n);
    }
  }
}
