/**
 * What each operation of the artifact catalog does to the records on disk
 * (src/artifacts.rs): the record found under every scope, kind and name afterwards.
 */
module CatalogRecords {
  import opened Wrappers
  import opened Text
  import opened CanonicalJson
  import opened ArtifactPaths
  import opened ArtifactCatalog
  import opened ArtifactDisk

  // ---- on slots ----

  lemma RewrittenLoads(store: Store, scope: Scope, meta: Meta, s: Scope, k: Kind, n: string)
    ensures Load(Rewritten(store, scope, meta), s, k, n)
         == if s == scope && k == meta.kind && n == meta.name && ValidName(n) then Some(meta)
            else Load(store, s, k, n)
  {
  }

  lemma OwnRecord(store: Store, scope: Scope, kind: Kind, name: string)
    requires Coherent(store) && Load(store, scope, kind, name).Some?
    ensures var meta := Load(store, scope, kind, name).value;
            meta.kind == kind && meta.name == name && ValidName(name)
  {
    assert Fits(store, Slot(scope, kind, name, Metadata));
  }

  lemma SupersededLoads(store: Store, kind: Kind, name: string, successor: string, s: Scope, k: Kind, n: string)
    requires Coherent(store)
    ensures var was := Load(store, s, k, n);
            Load(Superseded(store, kind, name, successor), s, k, n)
            == if was.Some? && s == Global && k == kind && n == name
               then Some(was.value.(active := false, supersededBy := Some(successor))) else was
  {
    var loaded := Load(store, Global, kind, name);
    if loaded.Some? {
      OwnRecord(store, Global, kind, name);
      RewrittenLoads(store, Global, loaded.value.(active := false, supersededBy := Some(successor)), s, k, n);
    }
  }

  lemma WarnedLoads(store: Store, kind: Kind, name: string, warnings: seq<string>, s: Scope, k: Kind, n: string)
    requires Coherent(store)
    ensures var was := Load(store, s, k, n);
            Load(Warned(store, kind, name, warnings), s, k, n)
            == if was.Some? && s == Global && k == kind && n == name
               then Some(was.value.(warnings := warnings)) else was
  {
    var loaded := Load(store, Global, kind, name);
    if loaded.Some? {
      OwnRecord(store, Global, kind, name);
      RewrittenLoads(store, Global, loaded.value.(warnings := warnings), s, k, n);
    }
  }

  lemma VanishedLoads(store: Store, scope: Scope, kind: Kind, name: string, s: Scope, k: Kind, n: string)
    requires Coherent(store)
    ensures var was := Load(store, s, k, n);
            Load(Vanished(store, scope, kind, name), s, k, n)
            == if was.Some? && was.value.active && s == scope && k == kind && n == name
               then Some(was.value.(active := false, supersededBy := Some("file_removed"))) else was
  {
    var loaded := Load(store, scope, kind, name);
    if loaded.Some? && loaded.value.active {
      OwnRecord(store, scope, kind, name);
      RewrittenLoads(store, scope, Gone(loaded.value), s, k, n);
    }
  }

  lemma BackfilledLoads(store: Store, s: Scope, k: Kind, n: string)
    requires Coherent(store)
    ensures var was, artifact := Load(store, s, k, n), Slot(s, k, n, File.Artifact);
            && (was.Some? ==> artifact in store && store[artifact].ValueFile?)
            && Load(Backfilled(store), s, k, n)
               == if was.Some? && was.value.hash.None?
                  then Some(was.value.(hash := Some(Canonical(store[artifact].value)))) else was
  {
    var slot := Slot(s, k, n, Metadata);
    if slot in store {
      assert Fits(store, slot);
      assert At(slot, Artifact) == Slot(s, k, n, File.Artifact);
      assert Backfilled(store)[slot] == Hashed(store, slot);
    }
  }

  lemma InstalledLoads(store: Store, r: Request, s: Scope, k: Kind, n: string)
    requires Coherent(store) && Accepted(r) && !UpToDate(store, r)
    requires !(s == r.scope && k == r.kind && n == NameOf(r).value)
    ensures var was := Load(store, s, k, n);
            Load(Installed(store, r), s, k, n)
            == if was.Some? && s == Global && k == r.kind && PreviousOf(r) == Some(n)
               then Some(was.value.(active := false, supersededBy := NameOf(r))) else was
  {
    InstalledOthers(store, r, Slot(s, k, n, Metadata));
    if PreviousOf(r).Some? {
      SupersededLoads(store, r.kind, PreviousOf(r).value, NameOf(r).value, s, k, n);
    }
  }

  /** A name above, with a slash between. */
  lemma NamedBelow(name: string, n: string)
    ensures Parts(name) < Parts(n) <==> name + ['/'] <= n
  {
    if name + ['/'] <= n {
      assert n == name + ['/'] + n[|name| + 1..];
      SplitAllConcat(name, '/', n[|name| + 1..]);
    }
    if Parts(name) < Parts(n) {
      PartsAbove(name, n, Parts(n)[|Parts(name)|..]);
    }
  }

  lemma PartsAbove(name: string, n: string, rest: seq<string>)
    requires rest != [] && Parts(n) == Parts(name) + rest
    ensures name + ['/'] <= n
  {
    var tail := JoinAll(rest, '/');
    assert forall p :: p in rest ==> p in Parts(n);
    SplitAllJoin(rest, '/');
    SplitAllConcat(name, '/', tail);
    SameName(n, name + ['/'] + tail);
  }

  lemma RecordRemoved(kind: Kind, name: string, s: Scope, k: Kind, n: string)
    ensures Removed(Slot(s, k, n, Metadata), kind, name)
            <==> s == Global && k == kind && (n == name || name + ['/'] <= n)
  {
    NamedBelow(name, n);
  }

  lemma WithoutLoads(store: Store, kind: Kind, name: string, s: Scope, k: Kind, n: string)
    ensures Load(Without(store, kind, name), s, k, n)
         == if Removed(Slot(s, k, n, Metadata), kind, name) then None else Load(store, s, k, n)
  {
    var slot := Slot(s, k, n, Metadata);
    assert slot in Without(store, kind, name) <==> slot in store && !Removed(slot, kind, name);
  }

  // ---- on disk ----

  lemma BothLoad(store: Store, disk: Disk, op: Op, s: Scope, k: Kind, n: string)
    requires Holds(store, disk) && Admissible(op) && PlainScope(s)
    ensures Read(disk, s, k, n) == Load(store, s, k, n)
    ensures Read(StepAt(disk, op), s, k, n) == Load(Step(store, op), s, k, n)
  {
    StepStored(store, disk, op);
    ReadIsLoad(store, disk, s, k, n);
    ReadIsLoad(Step(store, op), StepAt(disk, op), s, k, n);
  }

  /** Superseding needs the record of the successor; it marks the global record of that kind and name, and no other. */
  lemma SupersedeRecords(disk: Disk, kind: Kind, name: string, successor: string, s: Scope, k: Kind, n: string)
    requires IsCatalog(disk) && PlainScope(s)
    ensures var was := Read(disk, s, k, n);
            Read(StepAt(disk, Supersede(kind, name, successor)), s, k, n)
            == if was.Some? && s == Global && k == kind && n == name && Read(disk, Global, kind, successor).Some?
               then Some(was.value.(active := false, supersededBy := Some(successor))) else was
  {
    var store :| Holds(store, disk);
    BothLoad(store, disk, Supersede(kind, name, successor), s, k, n);
    ReadIsLoad(store, disk, Global, kind, successor);
    SupersededLoads(store, kind, name, successor, s, k, n);
  }

  /** New warnings replace those of the global record of that kind and name. */
  lemma WarnRecords(disk: Disk, kind: Kind, name: string, warnings: seq<string>, s: Scope, k: Kind, n: string)
    requires IsCatalog(disk) && PlainScope(s)
    ensures var was := Read(disk, s, k, n);
            Read(StepAt(disk, Warn(kind, name, warnings)), s, k, n)
            == if was.Some? && s == Global && k == kind && n == name
               then Some(was.value.(warnings := warnings)) else was
  {
    var store :| Holds(store, disk);
    BothLoad(store, disk, Warn(kind, name, warnings), s, k, n);
    WarnedLoads(store, kind, name, warnings, s, k, n);
  }

  /** An active record whose file is gone is marked as superseded by its removal. */
  lemma FileGoneRecords(disk: Disk, scope: Scope, kind: Kind, name: string, s: Scope, k: Kind, n: string)
    requires IsCatalog(disk) && PlainScope(scope) && PlainScope(s)
    ensures var was := Read(disk, s, k, n);
            Read(StepAt(disk, FileGone(scope, kind, name)), s, k, n)
            == if was.Some? && was.value.active && s == scope && k == kind && n == name
               then Some(was.value.(active := false, supersededBy := Some("file_removed"))) else was
  {
    var store :| Holds(store, disk);
    BothLoad(store, disk, FileGone(scope, kind, name), s, k, n);
    VanishedLoads(store, scope, kind, name, s, k, n);
  }

  /** Backfilling gives each record that has no hash that of its artifact, and changes no other. */
  lemma BackfillRecords(disk: Disk, s: Scope, k: Kind, n: string)
    requires IsCatalog(disk) && PlainScope(s)
    ensures var was, path := Read(disk, s, k, n), PathOf(Slot(s, k, n, File.Artifact));
            && (was.Some? ==> path in disk && disk[path].ValueFile?)
            && Read(StepAt(disk, Backfill), s, k, n)
               == if was.Some? && was.value.hash.None?
                  then Some(was.value.(hash := Some(Canonical(disk[path].value)))) else was
  {
    var store :| Holds(store, disk);
    BothLoad(store, disk, Backfill, s, k, n);
    BackfilledLoads(store, s, k, n);
    if Load(store, s, k, n).Some? {
      ReadStored(store, disk, Slot(s, k, n, File.Artifact));
    }
  }

  /** Removing a name removes the global records of that kind and name, and of the names below it. */
  lemma RemoveRecords(disk: Disk, kind: Kind, name: string, s: Scope, k: Kind, n: string)
    requires IsCatalog(disk) && ValidName(name) && Removable(name) && PlainScope(s)
    ensures Read(StepAt(disk, Remove(kind, name)), s, k, n)
         == if s == Global && k == kind && (n == name || name + "/" <= n) then None else Read(disk, s, k, n)
  {
    var store :| Holds(store, disk);
    BothLoad(store, disk, Remove(kind, name), s, k, n);
    WithoutLoads(store, kind, name, s, k, n);
    RecordRemoved(kind, name, s, k, n);
  }

  /** Of other records an installation marks the global one that it supersedes. */
  lemma InstallRecords(disk: Disk, r: Request, s: Scope, k: Kind, n: string)
    requires IsCatalog(disk) && AdmissibleRequest(r) && PlainScope(s)
    requires Accepted(r) && !HasContent(Read(disk, r.scope, r.kind, NameOf(r).value), r)
    requires !(s == r.scope && k == r.kind && n == NameOf(r).value)
    ensures var was := Read(disk, s, k, n);
            Read(StepAt(disk, Install(r)), s, k, n)
            == if was.Some? && s == Global && k == r.kind && PreviousOf(r) == Some(n)
               then Some(was.value.(active := false, supersededBy := NameOf(r))) else was
  {
    var store :| Holds(store, disk);
    BothLoad(store, disk, Install(r), s, k, n);
    ReadIsLoad(store, disk, r.scope, r.kind, NameOf(r).value);
    InstalledLoads(store, r, s, k, n);
  }

  lemma FilesHold(scope: Scope, meta: Meta, value: Json, file: File)
    requires file == File.Artifact || file == Snapshot(meta.version)
    ensures var slot := Slot(scope, meta.kind, meta.name, file);
            slot in Files(scope, meta, value) && Files(scope, meta, value)[slot] == ValueFile(value)
  {
    assert At(Slot(scope, meta.kind, meta.name, File.Artifact), file) == Slot(scope, meta.kind, meta.name, file);
  }

  lemma InstalledValue(store: Store, r: Request, file: File)
    requires AdmissibleRequest(r) && Accepted(r) && !UpToDate(store, r)
    requires file == File.Artifact || file == Snapshot(VersionOf(r).value)
    ensures var slot := Slot(r.scope, r.kind, NameOf(r).value, file);
            Good(slot) && slot in Installed(store, r) && Installed(store, r)[slot] == ValueFile(r.value)
  {
    FilesHold(r.scope, NewMeta(store, r), r.value, file);
  }

  /** An installation stores the value, as the artifact and as the snapshot of its version. */
  lemma InstallValues(disk: Disk, r: Request, file: File)
    requires IsCatalog(disk) && AdmissibleRequest(r)
    requires Accepted(r) && !HasContent(Read(disk, r.scope, r.kind, NameOf(r).value), r)
    requires file == File.Artifact || file == Snapshot(VersionOf(r).value)
    ensures var after, path := StepAt(disk, Install(r)), PathOf(Slot(r.scope, r.kind, NameOf(r).value, file));
            path in after && after[path] == ValueFile(r.value)
  {
    var store :| Holds(store, disk);
    ReadIsLoad(store, disk, r.scope, r.kind, NameOf(r).value);
    StepStored(store, disk, Install(r));
    InstalledValue(store, r, file);
    ReadStored(Installed(store, r), InstalledAt(disk, r), Slot(r.scope, r.kind, NameOf(r).value, file));
  }
}
