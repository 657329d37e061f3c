/**
 * The artifact catalog as it is on disk (src/artifacts.rs): the operations read, write
 * and delete files at paths. On admissible operations they do to the files what
 * `ArtifactCatalog` says they do to the slots.
 */
module ArtifactDisk {
  import opened Wrappers
  import opened CanonicalJson
  import opened ArtifactPaths
  import opened ArtifactCatalog
  import opened Seqs
  import Renaming

  type Disk = map<Path, Content>

  // ---- the operations at paths ----

  function MetadataPath(scope: Scope, kind: Kind, name: string): Path {
    PathOf(Slot(scope, kind, name, Metadata))
  }

  function VersionPath(scope: Scope, kind: Kind, meta: Meta): Path {
    PathOf(Slot(scope, kind, meta.name, SnapshotMetadata(meta.version)))
  }

  /** Reading a metadata file; it fails on a bad name, a missing file and one that does not parse. */
  function Read(disk: Disk, scope: Scope, kind: Kind, name: string): Option<Meta> {
    var path := MetadataPath(scope, kind, name);
    if ValidName(name) && path in disk && disk[path].MetaFile? then Some(disk[path].meta) else None
  }

  /** Writing metadata back where its own fields say; a bad name stops before the first write. */
  function Saved(disk: Disk, scope: Scope, meta: Meta): Disk {
    if !ValidName(meta.name) then disk
    else disk[MetadataPath(scope, meta.kind, meta.name) := MetaFile(meta)]
             [VersionPath(scope, meta.kind, meta) := MetaFile(meta)]
  }

  function Marked(disk: Disk, kind: Kind, name: string, successor: string): Disk {
    match Read(disk, Global, kind, name)
    case None => disk
    case Some(meta) => Saved(disk, Global, meta.(active := false, supersededBy := Some(successor)))
  }

  /** The four writes of an installation. */
  function Added(disk: Disk, scope: Scope, meta: Meta, value: Json): Disk {
    var slot := Slot(scope, meta.kind, meta.name, Artifact);
    disk[PathOf(slot) := ValueFile(value)]
        [PathOf(At(slot, Metadata)) := MetaFile(meta)]
        [PathOf(At(slot, Snapshot(meta.version))) := ValueFile(value)]
        [PathOf(At(slot, SnapshotMetadata(meta.version))) := MetaFile(meta)]
  }

  function ChainAt(disk: Disk, r: Request): seq<string> {
    match PreviousOf(r)
    case None => []
    case Some(previous) => ChainFrom(previous, Read(disk, Global, r.kind, previous))
  }

  function WithPreviousMarkedAt(disk: Disk, r: Request): Disk
    requires Accepted(r)
  {
    if PreviousOf(r).Some? then Marked(disk, r.kind, PreviousOf(r).value, NameOf(r).value) else disk
  }

  function InstalledAt(disk: Disk, r: Request): Disk {
    if !Accepted(r) || HasContent(Read(disk, r.scope, r.kind, NameOf(r).value), r) then disk
    else Added(WithPreviousMarkedAt(disk, r), r.scope, MetaOf(r, ChainAt(disk, r)), r.value)
  }

  /** The record an installation returns: the one that was up to date, or the one it wrote. */
  function InstalledMeta(disk: Disk, r: Request): Meta
    requires Accepted(r)
  {
    var existing := Read(disk, r.scope, r.kind, NameOf(r).value);
    if HasContent(existing, r) then existing.value else MetaOf(r, ChainAt(disk, r))
  }

  lemma NewlyInstalled(disk: Disk, r: Request)
    requires Accepted(r) && !HasContent(Read(disk, r.scope, r.kind, NameOf(r).value), r)
    ensures InstalledAt(disk, r)
         == Added(WithPreviousMarkedAt(disk, r), r.scope, MetaOf(r, ChainAt(disk, r)), r.value)
    ensures InstalledMeta(disk, r) == MetaOf(r, ChainAt(disk, r))
  {
  }

  /** What removing `name` deletes: the artifact's file and everything in its directory. */
  function DeletedPaths(disk: Disk, kind: Kind, name: string): set<Path> {
    set path | path in disk && (Inside(path, DirectoryOf(Global, kind, name))
                                || path == PathOf(Slot(Global, kind, name, Artifact)))
  }

  function WarnedAt(disk: Disk, kind: Kind, name: string, warnings: seq<string>): Disk {
    match Read(disk, Global, kind, name)
    case None => disk
    case Some(meta) => Saved(disk, Global, meta.(warnings := warnings))
  }

  /** A record whose file is gone: the copy at the version is written only if there is one. */
  function GoneAt(disk: Disk, scope: Scope, kind: Kind, meta: Meta): Disk {
    if !ValidName(meta.name) then disk
    else
      var first := disk[MetadataPath(scope, meta.kind, meta.name) := MetaFile(Gone(meta))];
      var copy := VersionPath(scope, kind, meta);
      if copy in first then first[copy := MetaFile(Gone(meta))] else first
  }

  predicate IsRecord(path: Path) {
    |path| >= 2 && (NamesMetadata(path) || NamesSnapshotMetadata(path))
  }

  /** A metadata file that has no hash yet. */
  predicate LacksHash(disk: Disk, path: Path) {
    IsRecord(path) && path in disk && disk[path].MetaFile? && disk[path].meta.hash.None?
  }

  predicate HasValue(disk: Disk, path: Path) {
    IsRecord(path) && ArtifactBeside(path) in disk && disk[ArtifactBeside(path)].ValueFile?
  }

  function HashedAt(disk: Disk, path: Path): Content
    requires path in disk
  {
    if LacksHash(disk, path) && HasValue(disk, path)
    then MetaFile(disk[path].meta.(hash := Some(Canonical(disk[ArtifactBeside(path)].value))))
    else disk[path]
  }

  function BackfilledAt(disk: Disk): Disk {
    map path | path in disk :: HashedAt(disk, path)
  }

  function StepAt(disk: Disk, op: Op): Disk {
    match op
    case Install(request) => InstalledAt(disk, request)
    case Supersede(kind, name, successor) =>
      if Read(disk, Global, kind, successor).Some? then Marked(disk, kind, name, successor) else disk
    case Remove(kind, name) => if ValidName(name) then disk - DeletedPaths(disk, kind, name) else disk
    case Warn(kind, name, warnings) => WarnedAt(disk, kind, name, warnings)
    case FileGone(scope, kind, name) => VanishedAt(disk, scope, kind, name)
    case Backfill => BackfilledAt(disk)
  }

  function VanishedAt(disk: Disk, scope: Scope, kind: Kind, name: string): Disk {
    match Read(disk, scope, kind, name)
    case Some(meta) => if meta.active then GoneAt(disk, scope, kind, meta) else disk
    case None => disk
  }

  function RunAt(disk: Disk, ops: seq<Op>): Disk {
    if ops == [] then disk else StepAt(RunAt(disk, ops[..|ops| - 1]), ops[|ops| - 1])
  }

  lemma RemoveStep(disk: Disk, kind: Kind, name: string)
    requires ValidName(name)
    ensures StepAt(disk, Remove(kind, name)) == disk - DeletedPaths(disk, kind, name)
  {
  }

  lemma WarnStep(disk: Disk, kind: Kind, name: string, warnings: seq<string>)
    ensures StepAt(disk, Warn(kind, name, warnings)) == WarnedAt(disk, kind, name, warnings)
  {
  }

  // ---- the disk holds the slots ----

  /** The disk holds the files of the store, each at its path, and no others. */
  ghost predicate Stored(store: Store, disk: Disk) {
    Renaming.Stored(PathOf, store, disk)
  }

  /** A file that reading or writing at its path tells apart from every good one. */
  predicate Readable(slot: Slot) {
    Good(slot) || (slot.file.Metadata? && PlainScope(slot.scope) && ValidName(slot.name))
  }

  lemma StoreApart(store: Store, slot: Slot)
    requires AllGood(store) && Readable(slot)
    ensures forall s :: s in store ==> (PathOf(s) == PathOf(slot) <==> s == slot)
  {
    forall s | s in store
      ensures PathOf(s) == PathOf(slot) <==> s == slot
    {
      if Good(slot) {
        PathsApart(s, slot);
      } else {
        MetadataApart(s, slot);
      }
    }
  }

  /** Reading at a path reads the slot; metadata may be looked up under every accepted name. */
  lemma ReadStored(store: Store, disk: Disk, slot: Slot)
    requires AllGood(store) && Stored(store, disk) && Readable(slot)
    ensures PathOf(slot) in disk <==> slot in store
    ensures slot in store ==> disk[PathOf(slot)] == store[slot]
  {
    StoreApart(store, slot);
    Renaming.ReadStored(PathOf, store, disk, slot);
  }

  lemma ReadIsLoad(store: Store, disk: Disk, scope: Scope, kind: Kind, name: string)
    requires AllGood(store) && Stored(store, disk) && PlainScope(scope)
    ensures Read(disk, scope, kind, name) == Load(store, scope, kind, name)
  {
    if ValidName(name) {
      ReadStored(store, disk, Slot(scope, kind, name, Metadata));
    }
  }

  /** Writing at a path writes the slot, and nothing else. */
  lemma WriteStored(store: Store, disk: Disk, slot: Slot, content: Content)
    requires AllGood(store) && Stored(store, disk) && Good(slot)
    ensures Stored(store[slot := content], disk[PathOf(slot) := content]) && AllGood(store[slot := content])
  {
    StoreApart(store, slot);
    Renaming.WriteStored(PathOf, store, disk, slot, content);
  }

  /** Deleting an artifact's file and directory removes its slots and those of the artifacts below it. */
  lemma RemoveStored(store: Store, disk: Disk, kind: Kind, name: string)
    requires AllGood(store) && Stored(store, disk) && ValidName(name) && Removable(name)
    ensures Stored(Without(store, kind, name), disk - DeletedPaths(disk, kind, name))
  {
    forall s | s in store
      ensures PathOf(s) in DeletedPaths(disk, kind, name) <==> s in Doomed(store, kind, name)
    {
      DeletedIsDoomed(store, disk, kind, name, s);
    }
    Renaming.RemoveStored(PathOf, store, disk, Doomed(store, kind, name), DeletedPaths(disk, kind, name));
  }

  lemma DeletedIsDoomed(store: Store, disk: Disk, kind: Kind, name: string, s: Slot)
    requires PathOf(s) in disk && s in store && Good(s) && ValidName(name) && Removable(name)
    ensures PathOf(s) in DeletedPaths(disk, kind, name) <==> s in Doomed(store, kind, name)
  {
    GoodDirectory(s, kind, name);
    ArtifactApart(s, Slot(Global, kind, name, Artifact));
  }

  // ---- removal, exactly ----

  /** Removing `name` at its paths is removing its slots, whatever the catalog holds. */
  ghost predicate RemovesItsSlots(kind: Kind, name: string) {
    forall store: Store, disk: Disk :: RemovalMatches(store, disk, kind, name)
  }

  ghost predicate RemovalMatches(store: Store, disk: Disk, kind: Kind, name: string) {
    AllGood(store) && Stored(store, disk) ==>
      Stored(Without(store, kind, name), disk - DeletedPaths(disk, kind, name))
  }

  lemma OneGood(slot: Slot)
    requires Good(slot)
    ensures AllGood(map[slot := ValueFile(Null)])
  {
  }

  /** A single file that is deleted although the artifact does not own it. */
  lemma RemovalReaches(slot: Slot, kind: Kind, name: string)
    requires Good(slot) && !Removed(slot, kind, name)
    requires Inside(PathOf(slot), DirectoryOf(Global, kind, name))
             || PathOf(slot) == PathOf(Slot(Global, kind, name, Artifact))
    ensures !RemovesItsSlots(kind, name)
  {
    var store: Store, disk: Disk := map[slot := ValueFile(Null)], map[PathOf(slot) := ValueFile(Null)];
    RemovalUnmatched(slot, kind, name);
    UnmatchedRefutes(store, disk, kind, name);
  }

  lemma UnmatchedRefutes(store: Store, disk: Disk, kind: Kind, name: string)
    requires !RemovalMatches(store, disk, kind, name)
    ensures !RemovesItsSlots(kind, name)
  {
  }

  lemma RemovalUnmatched(slot: Slot, kind: Kind, name: string)
    requires Good(slot) && !Removed(slot, kind, name)
    requires Inside(PathOf(slot), DirectoryOf(Global, kind, name))
             || PathOf(slot) == PathOf(Slot(Global, kind, name, Artifact))
    ensures var store: Store, disk: Disk := map[slot := ValueFile(Null)], map[PathOf(slot) := ValueFile(Null)];
            !RemovalMatches(store, disk, kind, name)
  {
    OneGood(slot);
    var store: Store, disk: Disk := map[slot := ValueFile(Null)], map[PathOf(slot) := ValueFile(Null)];
    Renaming.OneStored(PathOf, slot, ValueFile(Null));
    KeptOne(slot, kind, name);
    DeletedOne(slot, kind, name);
    MissingIsUnmatched(store, disk, kind, name, slot);
  }

  lemma MissingIsUnmatched(store: Store, disk: Disk, kind: Kind, name: string, slot: Slot)
    requires AllGood(store) && Stored(store, disk)
    requires slot in Without(store, kind, name) && PathOf(slot) !in disk - DeletedPaths(disk, kind, name)
    ensures !RemovalMatches(store, disk, kind, name)
  {
    Renaming.MissingIsNotStored(PathOf, Without(store, kind, name), disk - DeletedPaths(disk, kind, name), slot);
  }

  lemma KeptOne(slot: Slot, kind: Kind, name: string)
    requires !Removed(slot, kind, name)
    ensures slot in Without(map[slot := ValueFile(Null)], kind, name)
  {
  }

  lemma DeletedOne(slot: Slot, kind: Kind, name: string)
    requires Inside(PathOf(slot), DirectoryOf(Global, kind, name))
             || PathOf(slot) == PathOf(Slot(Global, kind, name, Artifact))
    ensures var disk: Disk := map[PathOf(slot) := ValueFile(Null)];
            PathOf(slot) !in disk - DeletedPaths(disk, kind, name)
  {
    var disk: Disk := map[PathOf(slot) := ValueFile(Null)];
    assert PathOf(slot) in disk && PathOf(slot) in DeletedPaths(disk, kind, name);
  }

  lemma NotRemoved(slot: Slot, kind: Kind, name: string)
    requires !slot.file.Artifact? && name != slot.name && !(Parts(name) < Parts(slot.name))
    ensures !Removed(slot, kind, name)
  {
  }

  /** It does so exactly for the removable names among those accepted. */
  lemma RemovalExactly(kind: Kind, name: string)
    requires ValidName(name)
    ensures RemovesItsSlots(kind, name) <==> Removable(name)
  {
    if Removable(name) {
      forall store: Store, disk: Disk
        ensures RemovalMatches(store, disk, kind, name)
      {
        if AllGood(store) && Stored(store, disk) {
          RemoveStored(store, disk, kind, name);
        }
      }
    } else {
      VersionOne();
      if m :| GoodName(m) && name == Child(m, ".versions") {
        SnapshotsReached(kind, name, m);
      } else if m :| GoodName(m) && name == Child(m, "metadata") {
        MetadataReached(kind, name, m);
      } else {
        var m, version :| GoodName(m) && GoodVersion(version) && name == Child(Child(m, ".versions"), "v" + version);
        SnapshotReached(kind, name, m, version);
      }
    }
  }

  lemma SnapshotsReached(kind: Kind, name: string, m: string)
    requires GoodName(m) && name == Child(m, ".versions")
    ensures !RemovesItsSlots(kind, name)
  {
    var slot := Slot(Global, kind, m, Snapshot("1"));
    VersionOne();
    SnapshotNotOwned(slot, Global, kind, name);
    RemovalReaches(slot, kind, name);
  }

  lemma MetadataReached(kind: Kind, name: string, m: string)
    requires GoodName(m) && name == Child(m, "metadata")
    ensures !RemovesItsSlots(kind, name)
  {
    MetadataNameClashes(Global, kind, m);
    NoSlash();
    ChildNotAbove(m, "metadata");
    NotRemoved(Slot(Global, kind, m, Metadata), kind, name);
    assert Good(Slot(Global, kind, m, Metadata));
    RemovalReaches(Slot(Global, kind, m, Metadata), kind, name);
  }

  lemma SnapshotReached(kind: Kind, name: string, m: string, version: string)
    requires ValidName(name) && GoodName(m) && GoodVersion(version)
    requires name == Child(Child(m, ".versions"), "v" + version)
    ensures !RemovesItsSlots(kind, name)
  {
    var slot := Slot(Global, kind, m, Snapshot(version));
    VersionPart(version, "v" + version);
    NoSlash();
    VersionsParts(m);
    ChildParts(Child(m, ".versions"), "v" + version);
    SnapshotClash(Global, kind, name, m, version);
    GrandchildNotAbove(m, ".versions", "v" + version);
    NotRemoved(slot, kind, name);
    RemovalReaches(slot, kind, name);
  }

  lemma GrandchildNotAbove(m: string, part: string, last: string)
    requires '/' !in part && '/' !in last
    ensures var name := Child(Child(m, part), last); !(Parts(name) < Parts(m)) && name != m
  {
    ChildParts(m, part);
    ChildParts(Child(m, part), last);
    assert |Parts(Child(Child(m, part), last))| == |Parts(m)| + 2;
  }

  // ---- every operation does to the disk what it does to the slots ----

  /** The store and the disk that holds it, with files that keep apart. */
  ghost predicate Holds(store: Store, disk: Disk) {
    Coherent(store) && AllGood(store) && Stored(store, disk)
  }

  /** The disk holds some coherent store of files that keep apart. */
  ghost predicate IsCatalog(disk: Disk) {
    exists store :: Holds(store, disk)
  }

  lemma SavedStored(store: Store, disk: Disk, scope: Scope, meta: Meta)
    requires Holds(store, disk)
    requires Slot(scope, meta.kind, meta.name, Metadata) in store
    requires Slot(scope, meta.kind, meta.name, SnapshotMetadata(meta.version)) in store
    ensures Stored(Rewritten(store, scope, meta), Saved(disk, scope, meta))
  {
    var slot := Slot(scope, meta.kind, meta.name, Metadata);
    var copy := At(slot, SnapshotMetadata(meta.version));
    assert Good(slot) && Good(copy);
    WriteStored(store, disk, slot, MetaFile(meta));
    WriteStored(store[slot := MetaFile(meta)], disk[PathOf(slot) := MetaFile(meta)], copy, MetaFile(meta));
  }

  lemma RecordInPlace(store: Store, slot: Slot)
    requires Coherent(store) && slot.file.Metadata? && slot in store
    ensures store[slot].MetaFile?
    ensures store[slot].meta.kind == slot.kind && store[slot].meta.name == slot.name
    ensures At(slot, SnapshotMetadata(store[slot].meta.version)) in store
  {
    assert Fits(store, slot);
  }

  lemma MarkedStored(store: Store, disk: Disk, kind: Kind, name: string, successor: string)
    requires Holds(store, disk)
    ensures Stored(Superseded(store, kind, name, successor), Marked(disk, kind, name, successor))
  {
    ReadIsLoad(store, disk, Global, kind, name);
    var loaded := Load(store, Global, kind, name);
    if loaded.Some? {
      RecordInPlace(store, Slot(Global, kind, name, Metadata));
      SavedStored(store, disk, Global, loaded.value.(active := false, supersededBy := Some(successor)));
    }
  }

  lemma FilesAreWrites(store: Store, scope: Scope, meta: Meta, value: Json)
    ensures var slot := Slot(scope, meta.kind, meta.name, Artifact);
            store + Files(scope, meta, value)
            == store[slot := ValueFile(value)][At(slot, Metadata) := MetaFile(meta)]
                    [At(slot, Snapshot(meta.version)) := ValueFile(value)]
                    [At(slot, SnapshotMetadata(meta.version)) := MetaFile(meta)]
  {
  }

  lemma AddedStored(store: Store, disk: Disk, scope: Scope, meta: Meta, value: Json)
    requires AllGood(store) && Stored(store, disk)
    requires PlainScope(scope) && GoodName(meta.name) && GoodVersion(meta.version)
    ensures Stored(store + Files(scope, meta, value), Added(disk, scope, meta, value))
  {
    var slot := Slot(scope, meta.kind, meta.name, Artifact);
    GoodSibling(slot, Artifact);
    GoodSibling(slot, Metadata);
    GoodSibling(slot, Snapshot(meta.version));
    GoodSibling(slot, SnapshotMetadata(meta.version));
    var s1, d1 := store[slot := ValueFile(value)], disk[PathOf(slot) := ValueFile(value)];
    WriteStored(store, disk, slot, ValueFile(value));
    var s2, d2 := s1[At(slot, Metadata) := MetaFile(meta)], d1[PathOf(At(slot, Metadata)) := MetaFile(meta)];
    WriteStored(s1, d1, At(slot, Metadata), MetaFile(meta));
    var snapshot := At(slot, Snapshot(meta.version));
    WriteStored(s2, d2, snapshot, ValueFile(value));
    WriteStored(s2[snapshot := ValueFile(value)], d2[PathOf(snapshot) := ValueFile(value)],
                At(slot, SnapshotMetadata(meta.version)), MetaFile(meta));
    FilesAreWrites(store, scope, meta, value);
  }

  lemma InstalledStored(store: Store, disk: Disk, r: Request)
    requires Holds(store, disk) && AdmissibleRequest(r)
    ensures Stored(Installed(store, r), InstalledAt(disk, r))
  {
    if Accepted(r) {
      var name := NameOf(r).value;
      ReadIsLoad(store, disk, r.scope, r.kind, name);
      if PreviousOf(r).Some? {
        ReadIsLoad(store, disk, Global, r.kind, PreviousOf(r).value);
        MarkedStored(store, disk, r.kind, PreviousOf(r).value, name);
        SupersededCoherent(store, r.kind, PreviousOf(r).value, name);
      }
      if !UpToDate(store, r) {
        AddedStored(WithPreviousMarked(store, r), WithPreviousMarkedAt(disk, r), r.scope, NewMeta(store, r), r.value);
      }
    }
  }

  lemma WarnedStored(store: Store, disk: Disk, kind: Kind, name: string, warnings: seq<string>)
    requires Holds(store, disk)
    ensures Stored(Warned(store, kind, name, warnings), WarnedAt(disk, kind, name, warnings))
  {
    ReadIsLoad(store, disk, Global, kind, name);
    var loaded := Load(store, Global, kind, name);
    if loaded.Some? {
      RecordInPlace(store, Slot(Global, kind, name, Metadata));
      SavedStored(store, disk, Global, loaded.value.(warnings := warnings));
    }
  }

  lemma GoneStored(store: Store, disk: Disk, slot: Slot)
    requires Holds(store, disk) && slot.file.Metadata? && slot in store && store[slot].MetaFile?
    ensures Stored(Rewritten(store, slot.scope, Gone(store[slot].meta)),
                   GoneAt(disk, slot.scope, slot.kind, store[slot].meta))
  {
    var meta := store[slot].meta;
    RecordInPlace(store, slot);
    assert slot == Slot(slot.scope, meta.kind, meta.name, Metadata);
    SavedStored(store, disk, slot.scope, Gone(meta));
    GoneIsSaved(disk, slot.scope, slot.kind, meta);
  }

  lemma GoneIsSaved(disk: Disk, scope: Scope, kind: Kind, meta: Meta)
    requires meta.kind == kind && VersionPath(scope, kind, meta) in disk
    ensures GoneAt(disk, scope, kind, meta) == Saved(disk, scope, Gone(meta))
  {
  }

  lemma BackfilledStored(store: Store, disk: Disk)
    requires Holds(store, disk)
    ensures Stored(Backfilled(store), BackfilledAt(disk))
  {
    forall slot | slot in store
      ensures PathOf(slot) in BackfilledAt(disk) && BackfilledAt(disk)[PathOf(slot)] == Backfilled(store)[slot]
    {
      HashedStored(store, disk, slot);
    }
    BackfilledKeys(store, disk);
    Renaming.RewriteStored(PathOf, store, disk, Backfilled(store), BackfilledAt(disk));
  }

  lemma BackfilledKeys(store: Store, disk: Disk)
    ensures Backfilled(store).Keys == store.Keys && BackfilledAt(disk).Keys == disk.Keys
  {
  }

  /** A walk finds exactly the metadata files, and beside each the value that belongs to it. */
  lemma WalkStored(store: Store, disk: Disk, slot: Slot)
    requires AllGood(store) && Stored(store, disk) && slot in store
    ensures IsRecord(PathOf(slot)) <==> slot.file.Metadata? || slot.file.SnapshotMetadata?
    ensures NamesMetadata(PathOf(slot)) <==> slot.file.Metadata?
    ensures IsRecord(PathOf(slot)) ==>
              var beside := At(slot, ArtifactFile(slot.file));
              && (ArtifactBeside(PathOf(slot)) in disk <==> beside in store)
              && (beside in store ==> disk[ArtifactBeside(PathOf(slot))] == store[beside])
  {
    WalkRecognises(slot);
    if slot.file.Metadata? || slot.file.SnapshotMetadata? {
      BesideIsOwn(slot);
      var beside := At(slot, ArtifactFile(slot.file));
      GoodSibling(slot, ArtifactFile(slot.file));
      ReadStored(store, disk, beside);
    }
  }

  lemma HashedStored(store: Store, disk: Disk, slot: Slot)
    requires AllGood(store) && Stored(store, disk) && slot in store
    ensures PathOf(slot) in disk && HashedAt(disk, PathOf(slot)) == Hashed(store, slot)
  {
    WalkStored(store, disk, slot);
  }

  /** One admissible operation. */
  lemma StepStored(store: Store, disk: Disk, op: Op)
    requires Holds(store, disk) && Admissible(op)
    ensures Holds(Step(store, op), StepAt(disk, op))
  {
    StepCoherent(store, op);
    StepGood(store, op);
    StepFollows(store, disk, op);
  }

  lemma StepFollows(store: Store, disk: Disk, op: Op)
    requires Holds(store, disk) && Admissible(op)
    ensures Stored(Step(store, op), StepAt(disk, op))
  {
    match op
    case Install(request) => InstalledStored(store, disk, request);
    case Supersede(kind, name, successor) =>
      ReadIsLoad(store, disk, Global, kind, successor);
      MarkedStored(store, disk, kind, name, successor);
    case Remove(kind, name) =>
      if ValidName(name) {
        RemoveStored(store, disk, kind, name);
      }
    case Warn(kind, name, warnings) => WarnedStored(store, disk, kind, name, warnings);
    case FileGone(scope, kind, name) => VanishedStored(store, disk, scope, kind, name);
    case Backfill => BackfilledStored(store, disk);
  }

  lemma VanishedStored(store: Store, disk: Disk, scope: Scope, kind: Kind, name: string)
    requires Holds(store, disk) && PlainScope(scope)
    ensures Stored(Vanished(store, scope, kind, name), VanishedAt(disk, scope, kind, name))
  {
    ReadIsLoad(store, disk, scope, kind, name);
    match Load(store, scope, kind, name)
    case Some(meta) =>
      if meta.active {
        VanishedIs(store, scope, kind, name, meta);
        VanishedAtIs(disk, scope, kind, name, meta);
        GoneStored(store, disk, Slot(scope, kind, name, Metadata));
      }
    case None =>
  }

  lemma VanishedIs(store: Store, scope: Scope, kind: Kind, name: string, meta: Meta)
    requires Load(store, scope, kind, name) == Some(meta) && meta.active
    ensures Vanished(store, scope, kind, name) == Rewritten(store, scope, Gone(meta))
  {
  }

  lemma VanishedAtIs(disk: Disk, scope: Scope, kind: Kind, name: string, meta: Meta)
    requires Read(disk, scope, kind, name) == Some(meta) && meta.active
    ensures VanishedAt(disk, scope, kind, name) == GoneAt(disk, scope, kind, meta)
  {
  }

  /** Every run of admissible operations keeps the disk in step with a coherent store of files apart. */
  lemma {:induction false} RunStored(store: Store, disk: Disk, ops: seq<Op>)
    requires Holds(store, disk) && forall op :: op in ops ==> Admissible(op)
    ensures Holds(Run(store, ops), RunAt(disk, ops))
  {
    if ops != [] {
      var n := |ops| - 1;
      RunStored(store, disk, ops[..n]);
      StepStored(Run(store, ops[..n]), RunAt(disk, ops[..n]), ops[n]);
    }
  }

  // ---- backfilling, file by file ----

  datatype BackfillReport = BackfillReport(activeUpdated: nat, versionUpdated: nat, missing: nat)

  /** `walk` lists the files of the disk, each once. */
  ghost predicate Lists(disk: Disk, walk: seq<Path>) {
    && (forall path :: path in walk <==> path in disk)
    && (forall i, j :: 0 <= i < j < |walk| ==> walk[i] != walk[j])
  }

  /** No metadata lies where a value is looked for. */
  ghost predicate ValuesBeside(disk: Disk) {
    forall path :: path in disk && IsRecord(path) && ArtifactBeside(path) in disk ==> HasValue(disk, path)
  }

  /** The active records, or the version records, that get a hash. */
  function Fillable(disk: Disk, active: bool): Path -> bool {
    path => LacksHash(disk, path) && HasValue(disk, path) && NamesMetadata(path) == active
  }

  /** The records without a hash and without a value to compute it from. */
  function Missing(disk: Disk): Path -> bool {
    path => LacksHash(disk, path) && !HasValue(disk, path)
  }

  function ReportOf(disk: Disk, walk: seq<Path>): BackfillReport {
    BackfillReport(|Filter(Fillable(disk, true), walk)|, |Filter(Fillable(disk, false), walk)|,
                   |Filter(Missing(disk), walk)|)
  }

  /** The report after one file. */
  function Counted(disk: Disk, path: Path, so: BackfillReport): BackfillReport {
    if Fillable(disk, true)(path) then so.(activeUpdated := so.activeUpdated + 1)
    else if Fillable(disk, false)(path) then so.(versionUpdated := so.versionUpdated + 1)
    else if Missing(disk)(path) then so.(missing := so.missing + 1)
    else so
  }

  /** A backfill that has got through `done`. */
  function PartlyHashed(disk: Disk, done: seq<Path>): Disk {
    map path | path in disk :: if path in done then HashedAt(disk, path) else disk[path]
  }

  lemma HashedAll(disk: Disk, walk: seq<Path>)
    requires Lists(disk, walk)
    ensures PartlyHashed(disk, walk) == BackfilledAt(disk)
  {
  }

  lemma WalkNext(disk: Disk, walk: seq<Path>, i: nat)
    requires Lists(disk, walk) && i < |walk|
    ensures walk[i] in disk && walk[i] !in walk[..i] && walk[..i + 1] == walk[..i] + [walk[i]]
  {
    assert walk[i] in walk;
  }

  lemma PartlyStep(disk: Disk, done: seq<Path>, path: Path)
    requires path in disk
    ensures PartlyHashed(disk, done + [path]) == PartlyHashed(disk, done)[path := HashedAt(disk, path)]
  {
  }

  lemma ReportStep(disk: Disk, done: seq<Path>, path: Path)
    ensures ReportOf(disk, done + [path]) == Counted(disk, path, ReportOf(disk, done))
  {
    FilterLast(Fillable(disk, true), done, path);
    FilterLast(Fillable(disk, false), done, path);
    FilterLast(Missing(disk), done, path);
  }

  /** A file not walked yet is as it was, and so is the value beside it. */
  lemma StillThere(disk: Disk, now: Disk, path: Path, done: seq<Path>)
    requires ValuesBeside(disk) && path in disk && now == PartlyHashed(disk, done) && path !in done
    ensures path in now && HashedAt(now, path) == HashedAt(disk, path)
    ensures forall so :: Counted(now, path, so) == Counted(disk, path, so)
  {
  }

  lemma BackfillStep(disk: Disk, walk: seq<Path>, i: nat)
    requires Lists(disk, walk) && ValuesBeside(disk) && i < |walk|
    ensures var path, now := walk[i], PartlyHashed(disk, walk[..i]);
            && path in now && PartlyHashed(disk, walk[..i + 1]) == now[path := HashedAt(now, path)]
            && ReportOf(disk, walk[..i + 1]) == Counted(now, path, ReportOf(disk, walk[..i]))
  {
    WalkNext(disk, walk, i);
    PartlyStep(disk, walk[..i], walk[i]);
    ReportStep(disk, walk[..i], walk[i]);
    StillThere(disk, PartlyHashed(disk, walk[..i]), walk[i], walk[..i]);
  }

  lemma HeldValue(store: Store, disk: Disk, path: Path)
    requires Holds(store, disk) && path in disk && IsRecord(path)
    ensures HasValue(disk, path)
  {
    var slot :| slot in store && PathOf(slot) == path;
    WalkStored(store, disk, slot);
    assert Fits(store, slot);
    assert At(slot, slot.file) == slot;
  }

  /** In a catalog that holds coherent files, no value is missing. */
  lemma ValidValues(store: Store, disk: Disk, walk: seq<Path>)
    requires Holds(store, disk)
    ensures ValuesBeside(disk) && ReportOf(disk, walk).missing == 0
  {
    forall path | path in disk && IsRecord(path)
      ensures HasValue(disk, path)
    {
      HeldValue(store, disk, path);
    }
    FilterMembers(Missing(disk), walk);
    NoneInEmpty(Filter(Missing(disk), walk));
  }

  lemma NoneInEmpty<T>(s: seq<T>)
    ensures s == [] || exists x :: x in s
  {
    assert s != [] ==> s[0] in s;
  }

  // ---- the records of a source ----

  /** An active record that was installed from `source`. */
  predicate CameFrom(disk: Disk, path: Path, source: string) {
    && NamesMetadata(path) && path in disk && disk[path].MetaFile?
    && disk[path].meta.active && disk[path].meta.source == source
  }

  ghost predicate NoneCameFrom(disk: Disk, walk: seq<Path>, source: string) {
    forall path :: path in walk ==> !CameFrom(disk, path, source)
  }

  lemma NoneCameFromStep(disk: Disk, walk: seq<Path>, i: nat, source: string)
    requires i < |walk| && NoneCameFrom(disk, walk[..i], source) && !CameFrom(disk, walk[i], source)
    ensures NoneCameFrom(disk, walk[..i + 1], source)
  {
    assert walk[..i + 1] == walk[..i] + [walk[i]];
  }

  /** In a coherent catalog the record found is the one of its own scope, kind and name. */
  lemma FoundRecord(store: Store, disk: Disk, scope: Scope, kind: Kind, path: Path)
    requires Holds(store, disk) && PlainScope(scope)
    requires path in disk && Base(scope, kind) < path && NamesMetadata(path) && disk[path].MetaFile?
    ensures var meta := disk[path].meta;
            && ValidName(meta.name) && Read(disk, scope, kind, meta.name) == Some(meta)
  {
    var slot :| slot in store && PathOf(slot) == path;
    WalkStored(store, disk, slot);
    InsideKind(slot, scope, kind);
    FoundSlot(store, disk, slot);
  }

  lemma FoundSlot(store: Store, disk: Disk, slot: Slot)
    requires Holds(store, disk) && slot in store && slot.file.Metadata?
    ensures PathOf(slot) in disk && disk[PathOf(slot)] == store[slot] && store[slot].MetaFile?
    ensures var meta := store[slot].meta;
            && ValidName(meta.name) && Read(disk, slot.scope, slot.kind, meta.name) == Some(meta)
  {
    RecordInPlace(store, slot);
    LoadedRecord(store, slot);
    ReadIsLoad(store, disk, slot.scope, slot.kind, slot.name);
  }

  lemma LoadedRecord(store: Store, slot: Slot)
    requires AllGood(store) && slot in store && slot.file.Metadata? && store[slot].MetaFile?
    ensures PlainScope(slot.scope) && ValidName(slot.name)
    ensures Load(store, slot.scope, slot.kind, slot.name) == Some(store[slot].meta)
  {
    assert slot == Slot(slot.scope, slot.kind, slot.name, Metadata);
    assert Good(slot);
  }

  /** What lies below the directory of a kind belongs to that scope and kind. */
  lemma InsideKind(slot: Slot, scope: Scope, kind: Kind)
    requires Base(scope, kind) < PathOf(slot)
    ensures slot.scope == scope && slot.kind == kind
  {
    var rest := RestOf(Base(scope, kind), PathOf(slot));
    SameBase(slot.scope, slot.kind, ArtifactPaths.Below(Parts(slot.name), slot.file), scope, kind, rest);
  }

  lemma RestOf(base: Path, path: Path) returns (rest: Path)
    requires base < path
    ensures path == base + rest && rest != []
  {
    rest := path[|base|..];
  }

  // ---- the catalog ----

  class Catalog {
    var disk: Disk

    /** The disk holds a coherent store of files that keep apart. */
    ghost predicate Valid()
      reads this
    {
      IsCatalog(disk)
    }

    constructor ()
      ensures Valid() && disk == map[]
    {
      disk := map[];
      new;
      assert Holds(map[], disk);
    }

    method Write(slot: Slot, content: Content)
      modifies this
      ensures disk == old(disk)[PathOf(slot) := content]
    {
      disk := disk[PathOf(slot) := content];
    }

    /** The active record and its copy at the version; false for a bad name. */
    method SaveBoth(scope: Scope, meta: Meta) returns (saved: bool)
      modifies this
      ensures disk == Saved(old(disk), scope, meta) && saved == ValidName(meta.name)
    {
      if !ValidName(meta.name) {
        return false;
      }
      var slot := Slot(scope, meta.kind, meta.name, Metadata);
      Write(slot, MetaFile(meta));
      Write(At(slot, SnapshotMetadata(meta.version)), MetaFile(meta));
      return true;
    }

    method MarkSuperseded(kind: Kind, name: string, successor: string) returns (r: Option<Meta>)
      modifies this
      ensures disk == Marked(old(disk), kind, name, successor)
      ensures r == match Read(old(disk), Global, kind, name)
                   case Some(meta) =>
                     if ValidName(meta.name) then Some(meta.(active := false, supersededBy := Some(successor)))
                     else None
                   case None => None
    {
      var loaded := Read(disk, Global, kind, name);
      if loaded.None? {
        return None;
      }
      var meta := loaded.value.(active := false, supersededBy := Some(successor));
      var saved := SaveBoth(Global, meta);
      return if saved then Some(meta) else None;
    }

    /** The artifact, its metadata and the snapshot of both. */
    method WriteFiles(scope: Scope, meta: Meta, value: Json)
      modifies this
      ensures disk == Added(old(disk), scope, meta, value)
    {
      var slot := Slot(scope, meta.kind, meta.name, Artifact);
      Write(slot, ValueFile(value));
      Write(At(slot, Metadata), MetaFile(meta));
      Write(At(slot, Snapshot(meta.version)), ValueFile(value));
      Write(At(slot, SnapshotMetadata(meta.version)), MetaFile(meta));
    }

    /** The chain of what `r` supersedes, which is marked; a failure to mark it is ignored. */
    method MarkPrevious(r: Request, name: string) returns (chain: seq<string>)
      requires Accepted(r) && NameOf(r) == Some(name)
      modifies this
      ensures disk == WithPreviousMarkedAt(old(disk), r) && chain == ChainAt(old(disk), r)
    {
      var supersedes := PreviousOf(r);
      chain := [];
      if supersedes.Some? {
        var previous := Read(disk, Global, r.kind, supersedes.value);
        if previous.Some? {
          chain := previous.value.chain;
        }
        chain := chain + [supersedes.value];
        var _ := MarkSuperseded(r.kind, supersedes.value, name);
      }
    }

    /** `install_value_locked_scoped` */
    method InstallLocked(r: Request) returns (installed: Result<Meta, ()>)
      modifies this
      ensures disk == InstalledAt(old(disk), r)
      ensures installed == if Accepted(r) then Ok(InstalledMeta(old(disk), r)) else Err(())
    {
      if NameOf(r).None? || !ValidName(NameOf(r).value) || VersionOf(r).None? {
        return Err(());
      }
      ghost var before := disk;
      var name, version, hash := NameOf(r).value, VersionOf(r).value, Canonical(r.value);
      var existing := Read(disk, r.scope, r.kind, name);
      if existing.Some? && existing.value.active && existing.value.hash == Some(hash)
         && existing.value.projectId == ProjectIdOf(r.scope) {
        assert HasContent(existing, r);
        return Ok(existing.value);
      }
      assert !HasContent(existing, r);
      var chain := MarkPrevious(r, name);
      var meta := Meta(r.kind, name, version, r.source, r.now, Some(hash), ProjectIdOf(r.scope), IsLocal(r.scope),
                       PreviousOf(r), chain, None, true, []);
      assert meta == MetaOf(r, ChainAt(before, r));
      WriteFiles(r.scope, meta, r.value);
      NewlyInstalled(before, r);
      return Ok(meta);
    }

    /** `install_value_scoped` */
    method InstallValue(r: Request) returns (installed: Result<Meta, ()>)
      modifies this
      ensures disk == StepAt(old(disk), Install(r))
      ensures installed.Ok? <==> Accepted(r)
      ensures installed.Ok? ==> installed.value.active && installed.value.hash == Some(Canonical(r.value))
      ensures installed.Ok? ==> installed.value == InstalledMeta(old(disk), r)
      ensures old(Valid()) && AdmissibleRequest(r) ==>
                Valid() && (installed.Ok? ==> Read(disk, r.scope, r.kind, NameOf(r).value) == Some(installed.value))
    {
      InstallKeeps(disk, r);
      if NameOf(r).None? || !ValidName(NameOf(r).value) {
        return Err(());
      }
      installed := InstallLocked(r);
    }

    method SupersedeArtifact(kind: Kind, name: string, successor: string) returns (r: Option<Meta>)
      modifies this
      ensures disk == StepAt(old(disk), Supersede(kind, name, successor))
      ensures r.Some? ==> Read(old(disk), Global, kind, successor).Some? && Read(old(disk), Global, kind, name).Some?
      ensures old(Valid()) ==> Valid()
    {
      ghost var before := disk;
      StepKeeps(before, Supersede(kind, name, successor));
      if !ValidName(name) || !ValidName(successor) || Read(disk, Global, kind, successor).None? {
        return None;
      }
      r := MarkSuperseded(kind, name, successor);
    }

    /**
     * `remove_hard`. `bare` tells whether the directory is there without any file, as
     * earlier removals leave it.
     */
    method RemoveHard(kind: Kind, name: string, dryRun: bool, confirm: bool, bare: bool)
      returns (removed: Result<bool, ()>)
      modifies this
      ensures disk == if removed == Ok(true) then StepAt(old(disk), Remove(kind, name)) else old(disk)
      ensures removed.Ok? <==>
                ValidName(name) && (dryRun || confirm) && (bare || DeletedPaths(old(disk), kind, name) != {})
      ensures removed.Ok? ==> removed.value == !dryRun
      ensures old(Valid()) && (ValidName(name) ==> Removable(name)) ==> Valid()
    {
      if !ValidName(name) || (!dryRun && !confirm) {
        return Err(());
      }
      var doomed := DeletedPaths(disk, kind, name);
      if doomed == {} && !bare {
        return Err(());
      }
      if dryRun {
        return Ok(false);
      }
      if Removable(name) {
        RemoveKeeps(disk, kind, name);
      }
      RemoveStep(disk, kind, name);
      disk := disk - doomed;
      return Ok(true);
    }

    method UpdateInstallWarnings(kind: Kind, name: string, warnings: seq<string>) returns (r: Option<Meta>)
      modifies this
      ensures disk == StepAt(old(disk), Warn(kind, name, warnings))
      ensures r.Some? ==> Read(old(disk), Global, kind, name).Some?
                          && r == Some(Read(old(disk), Global, kind, name).value.(warnings := warnings))
      ensures old(Valid()) ==> Valid()
    {
      WarnKeeps(disk, kind, name, warnings);
      WarnStep(disk, kind, name, warnings);
      r := Rewarn(kind, name, warnings);
    }

    /** The record with its new warnings; none for an unknown name or a bad one in the record. */
    method Rewarn(kind: Kind, name: string, warnings: seq<string>) returns (r: Option<Meta>)
      modifies this
      ensures disk == WarnedAt(old(disk), kind, name, warnings)
      ensures r.Some? ==> Read(old(disk), Global, kind, name).Some?
                          && r == Some(Read(old(disk), Global, kind, name).value.(warnings := warnings))
    {
      var loaded := Read(disk, Global, kind, name);
      if loaded.None? {
        return None;
      }
      var meta := loaded.value.(warnings := warnings);
      var saved := SaveBoth(Global, meta);
      return if saved then Some(meta) else None;
    }

    /**
     * `mark_removed_by_source`: the first record of the walk that is active and came
     * from `source`; `walk` lists the files below the kind's directory in any order.
     */
    method MarkRemovedBySource(scope: Scope, kind: Kind, source: string, walk: seq<Path>)
      returns (r: Result<Option<Path>, ()>)
      requires forall path :: path in walk <==> path in disk && Base(scope, kind) < path
      modifies this
      ensures r == Ok(None) ==> disk == old(disk) && NoneCameFrom(disk, walk, source)
      ensures r.Ok? && r.value.Some? ==> r.value.value in walk && CameFrom(old(disk), r.value.value, source)
                                         && disk == GoneAt(old(disk), scope, kind, old(disk)[r.value.value].meta)
      ensures r.Err? ==> disk == old(disk) && exists path :: path in walk && CameFrom(disk, path, source)
                                                             && !ValidName(disk[path].meta.name)
      ensures old(Valid()) && PlainScope(scope) ==> Valid() && r.Ok?
    {
      for i := 0 to |walk|
        invariant disk == old(disk) && NoneCameFrom(disk, walk[..i], source)
      {
        var path := walk[i];
        if CameFrom(disk, path, source) {
          assert path in walk;
          ghost var before := disk;
          GoneKeeps(before, scope, kind, path);
          var meta := Gone(disk[path].meta);
          if !ValidName(meta.name) {
            return Err(());
          }
          MarkGone(scope, kind, disk[path].meta);
          return Ok(Some(path));
        }
        NoneCameFromStep(disk, walk, i, source);
      }
      assert walk[..|walk|] == walk;
      return Ok(None);
    }

    /** The active record is rewritten; its copy at the version only if there is one. */
    method MarkGone(scope: Scope, kind: Kind, was: Meta)
      requires ValidName(was.name)
      modifies this
      ensures disk == GoneAt(old(disk), scope, kind, was)
    {
      var meta := Gone(was);
      Write(Slot(scope, meta.kind, meta.name, Metadata), MetaFile(meta));
      var copy := Slot(scope, kind, meta.name, SnapshotMetadata(meta.version));
      if PathOf(copy) in disk {
        Write(copy, MetaFile(meta));
      }
    }

    /** `backfill_content_hashes`: `walk` lists every file once, in any order. */
    method BackfillContentHashes(walk: seq<Path>) returns (report: BackfillReport)
      requires Lists(disk, walk) && ValuesBeside(disk)
      modifies this
      ensures disk == StepAt(old(disk), Backfill) && report == ReportOf(old(disk), walk)
      ensures old(Valid()) ==> Valid() && report.missing == 0
    {
      BackfillKeeps(disk, walk);
      HashedAll(disk, walk);
      report := BackfillInDir(walk);
    }

    method BackfillInDir(walk: seq<Path>) returns (report: BackfillReport)
      requires Lists(disk, walk) && ValuesBeside(disk)
      modifies this
      ensures disk == PartlyHashed(old(disk), walk) && report == ReportOf(old(disk), walk)
    {
      ghost var before := disk;
      report := BackfillReport(0, 0, 0);
      for i := 0 to |walk|
        invariant disk == PartlyHashed(before, walk[..i]) && report == ReportOf(before, walk[..i])
      {
        BackfillStep(before, walk, i);
        report := BackfillFile(walk[i], report);
      }
      assert walk[..|walk|] == walk;
    }

    method BackfillFile(path: Path, so: BackfillReport) returns (report: BackfillReport)
      requires path in disk
      modifies this
      ensures disk == old(disk)[path := HashedAt(old(disk), path)] && report == Counted(old(disk), path, so)
    {
      report := so;
      if LacksHash(disk, path) {
        var beside := ArtifactBeside(path);
        if beside !in disk || !disk[beside].ValueFile? {
          report := report.(missing := report.missing + 1);
        } else {
          disk := disk[path := MetaFile(disk[path].meta.(hash := Some(Canonical(disk[beside].value))))];
          if NamesMetadata(path) {
            report := report.(activeUpdated := report.activeUpdated + 1);
          } else {
            report := report.(versionUpdated := report.versionUpdated + 1);
          }
        }
      }
      assert disk == old(disk)[path := HashedAt(old(disk), path)];
    }
  }

  /** Admissible operations keep the catalog valid. */
  lemma StepKeeps(disk: Disk, op: Op)
    ensures IsCatalog(disk) && Admissible(op) ==> IsCatalog(StepAt(disk, op))
  {
    if IsCatalog(disk) && Admissible(op) {
      var store :| Holds(store, disk);
      StepStored(store, disk, op);
    }
  }

  lemma WarnKeeps(disk: Disk, kind: Kind, name: string, warnings: seq<string>)
    ensures IsCatalog(disk) ==> IsCatalog(WarnedAt(disk, kind, name, warnings))
  {
    if IsCatalog(disk) {
      var store :| Holds(store, disk);
      WarnHolds(store, disk, kind, name, warnings);
    }
  }

  lemma WarnHolds(store: Store, disk: Disk, kind: Kind, name: string, warnings: seq<string>)
    requires Holds(store, disk)
    ensures Holds(Warned(store, kind, name, warnings), WarnedAt(disk, kind, name, warnings))
  {
    WarnedCoherent(store, kind, name, warnings);
    assert AllGood(Warned(store, kind, name, warnings));
    WarnedStored(store, disk, kind, name, warnings);
  }

  lemma RemoveKeeps(disk: Disk, kind: Kind, name: string)
    requires ValidName(name) && Removable(name)
    ensures IsCatalog(disk) ==> IsCatalog(disk - DeletedPaths(disk, kind, name))
  {
    if IsCatalog(disk) {
      var store :| Holds(store, disk);
      RemoveHolds(store, disk, kind, name);
    }
  }

  lemma RemoveHolds(store: Store, disk: Disk, kind: Kind, name: string)
    requires Holds(store, disk) && ValidName(name) && Removable(name)
    ensures Holds(Without(store, kind, name), disk - DeletedPaths(disk, kind, name))
  {
    WithoutCoherent(store, kind, name);
    assert AllGood(Without(store, kind, name));
    RemoveStored(store, disk, kind, name);
  }

  lemma BackfillKeeps(disk: Disk, walk: seq<Path>)
    ensures IsCatalog(disk) ==>
              IsCatalog(BackfilledAt(disk)) && ReportOf(disk, walk).missing == 0
  {
    if IsCatalog(disk) {
      var store :| Holds(store, disk);
      StepStored(store, disk, Backfill);
      ValidValues(store, disk, walk);
    }
  }

  lemma InstallKeeps(disk: Disk, r: Request)
    ensures IsCatalog(disk) && AdmissibleRequest(r) ==>
              var after := StepAt(disk, Install(r));
              && IsCatalog(after)
              && (Accepted(r) ==>
                    Read(after, r.scope, r.kind, NameOf(r).value) == Some(InstalledMeta(disk, r)))
  {
    if IsCatalog(disk) && AdmissibleRequest(r) {
      var store :| Holds(store, disk);
      StepStored(store, disk, Install(r));
      if Accepted(r) {
        InstalledIsRead(store, disk, r);
      }
    }
  }

  lemma InstalledIsRead(store: Store, disk: Disk, r: Request)
    requires Holds(store, disk) && AdmissibleRequest(r) && Accepted(r)
    requires Holds(Installed(store, r), InstalledAt(disk, r))
    ensures !HasContent(Read(disk, r.scope, r.kind, NameOf(r).value), r) ==>
              Read(InstalledAt(disk, r), r.scope, r.kind, NameOf(r).value) == Some(MetaOf(r, ChainAt(disk, r)))
  {
    var name := NameOf(r).value;
    ReadIsLoad(store, disk, r.scope, r.kind, name);
    ReadIsLoad(Installed(store, r), InstalledAt(disk, r), r.scope, r.kind, name);
    if PreviousOf(r).Some? {
      ReadIsLoad(store, disk, Global, r.kind, PreviousOf(r).value);
    }
    FilesLoaded(WithPreviousMarked(store, r), r.scope, NewMeta(store, r), r.value);
  }

  lemma GoneKeeps(disk: Disk, scope: Scope, kind: Kind, path: Path)
    requires path in disk && Base(scope, kind) < path && NamesMetadata(path) && disk[path].MetaFile?
    requires disk[path].meta.active
    ensures IsCatalog(disk) && PlainScope(scope) ==>
              && ValidName(disk[path].meta.name)
              && IsCatalog(GoneAt(disk, scope, kind, disk[path].meta))
  {
    if IsCatalog(disk) && PlainScope(scope) {
      var store :| Holds(store, disk);
      FoundRecord(store, disk, scope, kind, path);
      GoneHolds(store, disk, scope, kind, disk[path].meta);
    }
  }

  lemma GoneHolds(store: Store, disk: Disk, scope: Scope, kind: Kind, meta: Meta)
    requires Holds(store, disk) && PlainScope(scope)
    requires Read(disk, scope, kind, meta.name) == Some(meta) && meta.active
    ensures Holds(Vanished(store, scope, kind, meta.name), GoneAt(disk, scope, kind, meta))
  {
    VanishedCoherent(store, scope, kind, meta.name);
    assert AllGood(Vanished(store, scope, kind, meta.name));
    VanishedStored(store, disk, scope, kind, meta.name);
  }
}
