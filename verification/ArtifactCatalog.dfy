/**
 * The artifact catalog (src/artifacts.rs): active artifacts with their metadata, and
 * a snapshot of both for every version installed. The content hash is taken to be
 * injective, so a stored hash is the canonical form it was computed from.
 */
module ArtifactCatalog {
  import opened Wrappers
  import opened Text
  import opened CanonicalJson
  import opened ArtifactPaths

  datatype Meta = Meta(
    kind: Kind, name: string, version: string, source: string, installedAt: string, hash: Option<Json>,
    projectId: Option<string>, local: bool, supersedes: Option<string>, chain: seq<string>,
    supersededBy: Option<string>, active: bool, warnings: seq<string>)

  datatype Content = MetaFile(meta: Meta) | ValueFile(value: Json)

  type Store = map<Slot, Content>

  function At(slot: Slot, file: File): Slot {
    slot.(file := file)
  }

  function ProjectIdOf(scope: Scope): Option<string> {
    if scope.Project? then Some(scope.projectId) else None
  }

  predicate IsLocal(scope: Scope) {
    scope.Project? && scope.local
  }

  /** Reading a metadata file; it fails on a bad name, a missing file and one that does not parse. */
  function Load(store: Store, scope: Scope, kind: Kind, name: string): Option<Meta> {
    var slot := Slot(scope, kind, name, Metadata);
    if ValidName(name) && slot in store && store[slot].MetaFile? then Some(store[slot].meta) else None
  }

  // ---- coherence ----

  predicate HoldsMeta(store: Store, slot: Slot) {
    slot in store && store[slot].MetaFile? && store[slot].meta.kind == slot.kind && store[slot].meta.name == slot.name
  }

  predicate HoldsValue(store: Store, slot: Slot) {
    slot in store && store[slot].ValueFile? && WellFormed(store[slot].value)
  }

  /** The file at `slot` agrees with the other files of its artifact. */
  predicate Fits(store: Store, slot: Slot)
    requires slot in store
  {
    match slot.file
    case Artifact => HoldsValue(store, slot) && At(slot, Metadata) in store
    case Metadata =>
      && HoldsMeta(store, slot)
      && var meta := store[slot].meta;
      && meta.projectId == ProjectIdOf(slot.scope) && meta.local == IsLocal(slot.scope)
      && At(slot, SnapshotMetadata(meta.version)) in store
      && store[At(slot, SnapshotMetadata(meta.version))] == store[slot]
      && HoldsValue(store, At(slot, Artifact)) && HoldsValue(store, At(slot, Snapshot(meta.version)))
      && store[At(slot, Artifact)] == store[At(slot, Snapshot(meta.version))]
    case Snapshot(version) => HoldsValue(store, slot)
    case SnapshotMetadata(version) =>
      && HoldsMeta(store, slot)
      && var meta := store[slot].meta;
      && meta.version == version && HoldsValue(store, At(slot, Snapshot(version)))
      && (meta.hash.Some? ==> meta.hash.value == Canonical(store[At(slot, Snapshot(version))].value))
  }

  /**
   * Active metadata equals the snapshot metadata of its own version, the active value
   * equals the snapshot of that version, and every stored hash is the hash of the value.
   */
  ghost predicate Coherent(store: Store) {
    forall slot :: slot in store ==> Fits(store, slot)
  }

  ghost predicate AllGood(store: Store) {
    forall slot :: slot in store ==> Good(slot)
  }

  // ---- what the operations do to the store ----

  /** Writing changed metadata back, as the active record and at its version. */
  function Rewritten(store: Store, scope: Scope, meta: Meta): Store {
    var slot := Slot(scope, meta.kind, meta.name, Metadata);
    store[slot := MetaFile(meta)][At(slot, SnapshotMetadata(meta.version)) := MetaFile(meta)]
  }

  function Superseded(store: Store, kind: Kind, name: string, successor: string): Store {
    match Load(store, Global, kind, name)
    case None => store
    case Some(meta) => Rewritten(store, Global, meta.(active := false, supersededBy := Some(successor)))
  }

  datatype Request = Request(
    scope: Scope, kind: Kind, source: string, value: Json, name: Option<string>, version: Option<string>,
    supersedes: Option<string>, now: string)

  function Get(value: Json, key: string): Option<Json> {
    if value.Obj? then Find(value.members, key) else None
  }

  function Find(members: seq<Member>, key: string): Option<Json> {
    if members == [] then None
    else if members[0].key == key then Some(members[0].value)
    else Find(members[1..], key)
  }

  function NameIn(kind: Kind, value: Json): Option<string> {
    match Get(value, if kind.Packet? then "domain" else "name")
    case Some(Str(s)) => Some(s)
    case _ => None
  }

  function VersionIn(value: Json): Option<string> {
    match Get(value, "version")
    case Some(Str(s)) => if Trim(s) != "" then Some(s) else None
    case Some(Num(digits)) => Some(digits)
    case _ => None
  }

  function SupersedesIn(value: Json): Option<string> {
    match Get(value, "supersedes")
    case Some(Str(s)) => if Trim(s) != "" then Some(s) else None
    case _ => None
  }

  function OrElse<T>(a: Option<T>, b: Option<T>): Option<T> {
    if a.Some? then a else b
  }

  function NameOf(r: Request): Option<string> {
    OrElse(r.name, NameIn(r.kind, r.value))
  }

  function VersionOf(r: Request): Option<string> {
    OrElse(r.version, VersionIn(r.value))
  }

  function PreviousOf(r: Request): Option<string> {
    OrElse(r.supersedes, SupersedesIn(r.value))
  }

  /** The request names an artifact and a version. */
  predicate Accepted(r: Request) {
    NameOf(r).Some? && ValidName(NameOf(r).value) && VersionOf(r).Some?
  }

  /** The active record of the same scope, kind and name already has this content. */
  predicate UpToDate(store: Store, r: Request)
    requires Accepted(r)
  {
    HasContent(Load(store, r.scope, r.kind, NameOf(r).value), r)
  }

  predicate HasContent(existing: Option<Meta>, r: Request) {
    && existing.Some? && existing.value.active
    && existing.value.hash == Some(Canonical(r.value))
    && existing.value.projectId == ProjectIdOf(r.scope)
  }

  /** The superseded artifacts, oldest first, given the record of the artifact superseded now. */
  function ChainFrom(previous: string, record: Option<Meta>): seq<string> {
    (if record.Some? then record.value.chain else []) + [previous]
  }

  /** Only global artifacts are looked up. */
  function ChainOf(store: Store, r: Request): seq<string> {
    match PreviousOf(r)
    case None => []
    case Some(previous) => ChainFrom(previous, Load(store, Global, r.kind, previous))
  }

  function MetaOf(r: Request, chain: seq<string>): Meta
    requires Accepted(r)
  {
    Meta(r.kind, NameOf(r).value, VersionOf(r).value, r.source, r.now, Some(Canonical(r.value)),
         ProjectIdOf(r.scope), IsLocal(r.scope), PreviousOf(r), chain, None, true, [])
  }

  function NewMeta(store: Store, r: Request): Meta
    requires Accepted(r)
  {
    MetaOf(r, ChainOf(store, r))
  }

  /** The four files of a new installation. */
  function Files(scope: Scope, meta: Meta, value: Json): Store {
    var slot := Slot(scope, meta.kind, meta.name, Artifact);
    map[slot := ValueFile(value), At(slot, Metadata) := MetaFile(meta),
        At(slot, Snapshot(meta.version)) := ValueFile(value),
        At(slot, SnapshotMetadata(meta.version)) := MetaFile(meta)]
  }

  lemma FilesLoaded(store: Store, scope: Scope, meta: Meta, value: Json)
    requires ValidName(meta.name)
    ensures Load(store + Files(scope, meta, value), scope, meta.kind, meta.name) == Some(meta)
  {
    assert Slot(scope, meta.kind, meta.name, Metadata) == At(Slot(scope, meta.kind, meta.name, Artifact), Metadata);
  }

  /** The store once the artifact that the request supersedes has been marked. */
  function WithPreviousMarked(store: Store, r: Request): Store
    requires Accepted(r)
  {
    if PreviousOf(r).Some? then Superseded(store, r.kind, PreviousOf(r).value, NameOf(r).value) else store
  }

  function Installed(store: Store, r: Request): Store {
    if !Accepted(r) || UpToDate(store, r) then store
    else WithPreviousMarked(store, r) + Files(r.scope, NewMeta(store, r), r.value)
  }

  /** The file behind a record is gone: an active record is marked, any other left alone. */
  function Vanished(store: Store, scope: Scope, kind: Kind, name: string): Store {
    match Load(store, scope, kind, name)
    case Some(meta) => if meta.active then Rewritten(store, scope, Gone(meta)) else store
    case None => store
  }

  predicate Removed(slot: Slot, kind: Kind, name: string) {
    slot == Slot(Global, kind, name, Artifact) || OwnedBy(slot, Global, kind, name)
  }

  function Doomed(store: Store, kind: Kind, name: string): set<Slot> {
    set slot | slot in store && Removed(slot, kind, name)
  }

  function Without(store: Store, kind: Kind, name: string): Store {
    store - Doomed(store, kind, name)
  }

  /** The metadata with its hash filled in from the value beside it, if there is one. */
  function Hashed(store: Store, slot: Slot): Content
    requires slot in store
  {
    var beside := At(slot, ArtifactFile(slot.file));
    if (slot.file.Metadata? || slot.file.SnapshotMetadata?) && store[slot].MetaFile?
       && store[slot].meta.hash.None? && beside in store && store[beside].ValueFile?
    then MetaFile(store[slot].meta.(hash := Some(Canonical(store[beside].value))))
    else store[slot]
  }

  function Backfilled(store: Store): Store {
    map slot | slot in store :: Hashed(store, slot)
  }

  // ---- every operation keeps the catalog coherent ----

  predicate SameArtifact(a: Slot, b: Slot) {
    a.scope == b.scope && a.kind == b.kind && a.name == b.name
  }

  /** The two stores hold the same files of the artifact of `slot`. */
  ghost predicate Agree(store: Store, after: Store, slot: Slot) {
    forall file :: var s := At(slot, file);
      (s in store <==> s in after) && (s in store ==> store[s] == after[s])
  }

  lemma FitsLocal(store: Store, after: Store, slot: Slot)
    requires slot in store && Fits(store, slot) && Agree(store, after, slot)
    ensures slot in after && Fits(after, slot)
  {
    assert At(slot, slot.file) == slot;
    assert At(slot, Metadata) in store <==> At(slot, Metadata) in after;
    if slot.file.Metadata? {
      var version := store[slot].meta.version;
      assert At(slot, Artifact) in after && At(slot, Snapshot(version)) in after
             && At(slot, SnapshotMetadata(version)) in after;
    } else if slot.file.SnapshotMetadata? {
      assert At(slot, Snapshot(slot.file.version)) in after;
    }
  }

  /** `meta` differs from the record at `slot` only in what is not tied to other files. */
  predicate Revises(store: Store, slot: Slot, meta: Meta) {
    && slot.file.Metadata? && slot in store && store[slot].MetaFile?
    && meta.kind == slot.kind && meta.name == slot.name
    && var was := store[slot].meta;
    && meta.version == was.version && meta.hash == was.hash
    && meta.projectId == was.projectId && meta.local == was.local
  }

  lemma RewrittenFits(store: Store, slot: Slot, meta: Meta, after: Store, s: Slot)
    requires Coherent(store) && Revises(store, slot, meta) && after == Rewritten(store, slot.scope, meta)
    requires SameArtifact(s, slot) && s in store
    ensures Fits(after, s)
  {
    var copy := At(slot, SnapshotMetadata(meta.version));
    assert Fits(store, slot) && Fits(store, copy) && Fits(store, s);
    assert At(s, s.file) == s;
    if s == slot || s == copy {
      RevisedFits(store, slot, meta, after);
    } else {
      KeptFits(store, slot, meta, after, s);
    }
  }

  lemma KeptFits(store: Store, slot: Slot, meta: Meta, after: Store, s: Slot)
    requires Revises(store, slot, meta) && after == Rewritten(store, slot.scope, meta)
    requires At(slot, SnapshotMetadata(meta.version)) in store && s in store && Fits(store, s)
    requires s != slot && s != At(slot, SnapshotMetadata(meta.version)) && SameArtifact(s, slot)
    ensures Fits(after, s)
  {
    assert !s.file.Metadata? && At(s, s.file) == s;
    assert after[s] == store[s] && after.Keys == store.Keys;
  }

  lemma RevisedFits(store: Store, slot: Slot, meta: Meta, after: Store)
    requires Coherent(store) && Revises(store, slot, meta) && after == Rewritten(store, slot.scope, meta)
    requires Fits(store, slot) && Fits(store, At(slot, SnapshotMetadata(meta.version)))
    ensures Fits(after, slot) && Fits(after, At(slot, SnapshotMetadata(meta.version)))
  {
  }

  /** Metadata may be rewritten as long as its identity, version and hash stay. */
  lemma RewrittenCoherent(store: Store, slot: Slot, meta: Meta)
    requires Coherent(store) && Revises(store, slot, meta)
    ensures Coherent(Rewritten(store, slot.scope, meta))
    ensures Rewritten(store, slot.scope, meta).Keys == store.Keys
  {
    var after := Rewritten(store, slot.scope, meta);
    assert Fits(store, slot);
    forall s | s in after
      ensures Fits(after, s)
    {
      assert Fits(store, s);
      if SameArtifact(s, slot) {
        RewrittenFits(store, slot, meta, after, s);
      } else {
        FitsLocal(store, after, s);
      }
    }
  }

  lemma SupersededCoherent(store: Store, kind: Kind, name: string, successor: string)
    requires Coherent(store)
    ensures Coherent(Superseded(store, kind, name, successor))
    ensures Superseded(store, kind, name, successor).Keys == store.Keys
  {
    var slot := Slot(Global, kind, name, Metadata);
    if Load(store, Global, kind, name).Some? {
      assert Fits(store, slot);
      RewrittenCoherent(store, slot, store[slot].meta.(active := false, supersededBy := Some(successor)));
    }
  }

  lemma WarnedCoherent(store: Store, kind: Kind, name: string, warnings: seq<string>)
    requires Coherent(store)
    ensures Coherent(Warned(store, kind, name, warnings)) && Warned(store, kind, name, warnings).Keys == store.Keys
  {
    var slot := Slot(Global, kind, name, Metadata);
    if Load(store, Global, kind, name).Some? {
      assert Fits(store, slot);
      RewrittenCoherent(store, slot, store[slot].meta.(warnings := warnings));
    }
  }

  lemma VanishedCoherent(store: Store, scope: Scope, kind: Kind, name: string)
    requires Coherent(store)
    ensures Coherent(Vanished(store, scope, kind, name)) && Vanished(store, scope, kind, name).Keys == store.Keys
  {
    var slot := Slot(scope, kind, name, Metadata);
    if Load(store, scope, kind, name).Some? {
      assert Fits(store, slot);
      RewrittenCoherent(store, slot, Gone(store[slot].meta));
    }
  }

  /** A new installation's own files fit together ... */
  lemma FilesFit(store: Store, scope: Scope, meta: Meta, value: Json, s: Slot)
    requires WellFormed(value) && meta.hash == Some(Canonical(value))
    requires meta.projectId == ProjectIdOf(scope) && meta.local == IsLocal(scope)
    requires s in Files(scope, meta, value)
    ensures Fits(store + Files(scope, meta, value), s)
  {
    var slot := Slot(scope, meta.kind, meta.name, Artifact);
    assert At(s, Artifact) == slot;
    assert At(s, s.file) == s;
  }

  /** ... and the snapshots of other versions stay as they were. */
  lemma OlderFit(store: Store, scope: Scope, meta: Meta, value: Json, s: Slot)
    requires Coherent(store) && s in store && s !in Files(scope, meta, value)
    requires SameArtifact(s, Slot(scope, meta.kind, meta.name, Artifact))
    ensures Fits(store + Files(scope, meta, value), s)
  {
    var slot := Slot(scope, meta.kind, meta.name, Artifact);
    assert Fits(store, s);
    assert At(s, s.file) == s && At(slot, s.file) == s;
    assert !s.file.Artifact? && !s.file.Metadata?;
  }

  lemma FilesCoherent(store: Store, scope: Scope, meta: Meta, value: Json)
    requires Coherent(store) && WellFormed(value)
    requires meta.projectId == ProjectIdOf(scope) && meta.local == IsLocal(scope)
    requires meta.hash == Some(Canonical(value))
    ensures Coherent(store + Files(scope, meta, value))
  {
    var after := store + Files(scope, meta, value);
    forall s | s in after
      ensures Fits(after, s)
    {
      if s in Files(scope, meta, value) {
        FilesFit(store, scope, meta, value, s);
      } else if SameArtifact(s, Slot(scope, meta.kind, meta.name, Artifact)) {
        OlderFit(store, scope, meta, value, s);
      } else {
        FitsLocal(store, after, s);
      }
    }
  }

  lemma InstalledCoherent(store: Store, r: Request)
    requires Coherent(store) && WellFormed(r.value)
    ensures Coherent(Installed(store, r))
  {
    if Accepted(r) && !UpToDate(store, r) {
      if PreviousOf(r).Some? {
        SupersededCoherent(store, r.kind, PreviousOf(r).value, NameOf(r).value);
      }
      FilesCoherent(WithPreviousMarked(store, r), r.scope, NewMeta(store, r), r.value);
    }
  }

  lemma RemovedTogether(a: Slot, b: Slot, kind: Kind, name: string)
    requires SameArtifact(a, b)
    ensures Removed(a, kind, name) <==> Removed(b, kind, name)
  {
    assert !(Parts(name) < Parts(name));
  }

  lemma WithoutCoherent(store: Store, kind: Kind, name: string)
    requires Coherent(store)
    ensures Coherent(Without(store, kind, name))
  {
    var after := Without(store, kind, name);
    forall s | s in after
      ensures Fits(after, s)
    {
      forall file
        ensures Removed(At(s, file), kind, name) <==> Removed(s, kind, name)
      {
        RemovedTogether(At(s, file), s, kind, name);
      }
      FitsLocal(store, after, s);
    }
  }

  lemma HashedFits(store: Store, slot: Slot)
    requires Coherent(store) && slot in store
    ensures Fits(Backfilled(store), slot)
  {
    assert Fits(store, slot);
    assert At(slot, slot.file) == slot;
    if slot.file.Metadata? {
      HashedRecordFits(store, slot);
    } else {
      assert Backfilled(store)[slot] == Hashed(store, slot);
    }
  }

  lemma HashedRecordFits(store: Store, slot: Slot)
    requires Coherent(store) && slot in store && slot.file.Metadata?
    ensures Fits(Backfilled(store), slot)
  {
    var after := Backfilled(store);
    assert Fits(store, slot);
    var snapshot := At(slot, SnapshotMetadata(store[slot].meta.version));
    assert Fits(store, snapshot);
    assert after[slot] == Hashed(store, slot) && after[snapshot] == Hashed(store, snapshot);
  }

  /** On a coherent catalog, backfilling finds every value and leaves no hash missing. */
  lemma BackfilledCoherent(store: Store)
    requires Coherent(store)
    ensures Coherent(Backfilled(store))
    ensures forall slot :: slot in store && store[slot].MetaFile? ==>
              Backfilled(store)[slot].MetaFile? && Backfilled(store)[slot].meta.hash.Some?
  {
    var after := Backfilled(store);
    forall slot | slot in after
      ensures Fits(after, slot)
    {
      HashedFits(store, slot);
    }
    forall slot | slot in store && store[slot].MetaFile?
      ensures after[slot].MetaFile? && after[slot].meta.hash.Some?
    {
      assert Fits(store, slot);
      assert At(slot, slot.file) == slot;
    }
  }

  lemma BackfilledTwice(store: Store)
    requires Coherent(store)
    ensures Backfilled(Backfilled(store)) == Backfilled(store)
  {
    BackfilledCoherent(store);
    forall slot | slot in store
      ensures Hashed(Backfilled(store), slot) == Backfilled(store)[slot]
    {
      HashedStays(Backfilled(store), slot);
    }
  }

  lemma HashedStays(store: Store, slot: Slot)
    requires slot in store && (store[slot].MetaFile? ==> store[slot].meta.hash.Some?)
    ensures Hashed(store, slot) == store[slot]
  {
  }

  // ---- runs ----

  datatype Op =
    | Install(request: Request)
    | Supersede(kind: Kind, name: string, successor: string)
    | Remove(kind: Kind, name: string)
    | Warn(kind: Kind, name: string, warnings: seq<string>)
    | FileGone(scope: Scope, kind: Kind, name: string)
    | Backfill

  function Warned(store: Store, kind: Kind, name: string, warnings: seq<string>): Store {
    match Load(store, Global, kind, name)
    case None => store
    case Some(meta) => Rewritten(store, Global, meta.(warnings := warnings))
  }

  function Gone(meta: Meta): Meta {
    meta.(active := false, supersededBy := Some("file_removed"))
  }

  function Step(store: Store, op: Op): Store {
    match op
    case Install(request) => Installed(store, request)
    case Supersede(kind, name, successor) =>
      if Load(store, Global, kind, successor).Some? then Superseded(store, kind, name, successor) else store
    case Remove(kind, name) => if ValidName(name) then Without(store, kind, name) else store
    case Warn(kind, name, warnings) => Warned(store, kind, name, warnings)
    case FileGone(scope, kind, name) => Vanished(store, scope, kind, name)
    case Backfill => Backfilled(store)
  }

  function Run(store: Store, ops: seq<Op>): Store {
    if ops == [] then store else Step(Run(store, ops[..|ops| - 1]), ops[|ops| - 1])
  }

  /** Installations name artifacts, versions and projects of which no files can clash. */
  predicate AdmissibleRequest(r: Request) {
    && WellFormed(r.value) && PlainScope(r.scope)
    && (Accepted(r) ==> GoodName(NameOf(r).value) && GoodVersion(VersionOf(r).value))
  }

  ghost predicate Admissible(op: Op) {
    match op
    case Install(request) => AdmissibleRequest(request)
    case Remove(kind, name) => ValidName(name) ==> Removable(name)
    case FileGone(scope, kind, name) => PlainScope(scope)
    case _ => true
  }

  lemma StepCoherent(store: Store, op: Op)
    requires Coherent(store) && (op.Install? ==> WellFormed(op.request.value))
    ensures Coherent(Step(store, op))
  {
    match op
    case Install(request) => InstalledCoherent(store, request);
    case Supersede(kind, name, successor) => SupersededCoherent(store, kind, name, successor);
    case Remove(kind, name) => WithoutCoherent(store, kind, name);
    case Warn(kind, name, warnings) => WarnedCoherent(store, kind, name, warnings);
    case FileGone(scope, kind, name) => VanishedCoherent(store, scope, kind, name);
    case Backfill => BackfilledCoherent(store);
  }

  /** The files a step adds are those of an installation. */
  lemma StepKeys(store: Store, op: Op)
    requires Coherent(store)
    ensures forall slot :: slot in Step(store, op) ==>
              || slot in store
              || (op.Install? && Accepted(op.request)
                  && slot in Files(op.request.scope, NewMeta(store, op.request), op.request.value))
  {
    match op
    case Install(r) =>
      if PreviousOf(r).Some? && Accepted(r) {
        SupersededCoherent(store, r.kind, PreviousOf(r).value, NameOf(r).value);
      }
    case Supersede(kind, name, successor) => SupersededCoherent(store, kind, name, successor);
    case Warn(kind, name, warnings) => WarnedCoherent(store, kind, name, warnings);
    case FileGone(scope, kind, name) => VanishedCoherent(store, scope, kind, name);
    case _ =>
  }

  lemma StepGood(store: Store, op: Op)
    requires Coherent(store) && AllGood(store) && Admissible(op)
    ensures AllGood(Step(store, op))
  {
    StepKeys(store, op);
    if op.Install? && Accepted(op.request) {
      FilesGood(op.request.scope, NewMeta(store, op.request), op.request.value);
    }
  }

  lemma FilesGood(scope: Scope, meta: Meta, value: Json)
    requires PlainScope(scope) && GoodName(meta.name) && GoodVersion(meta.version)
    ensures AllGood(Files(scope, meta, value))
  {
    var slot := Slot(scope, meta.kind, meta.name, Artifact);
    forall s | s in Files(scope, meta, value)
      ensures Good(s)
    {
      FilesSlots(scope, meta, value, s);
      GoodSibling(slot, s.file);
    }
  }

  lemma FilesSlots(scope: Scope, meta: Meta, value: Json, s: Slot)
    requires s in Files(scope, meta, value)
    ensures s == At(Slot(scope, meta.kind, meta.name, Artifact), s.file)
    ensures s.file.Snapshot? || s.file.SnapshotMetadata? ==> s.file.version == meta.version
  {
  }

  lemma GoodSibling(slot: Slot, file: File)
    requires PlainScope(slot.scope) && GoodName(slot.name) && GoodFile(file)
    ensures Good(At(slot, file))
  {
  }

  /** Every run of admissible operations keeps the catalog coherent and its files apart. */
  lemma {:induction false} RunCoherent(store: Store, ops: seq<Op>)
    requires Coherent(store) && AllGood(store) && forall op :: op in ops ==> Admissible(op)
    ensures Coherent(Run(store, ops)) && AllGood(Run(store, ops))
  {
    if ops != [] {
      var n := |ops| - 1;
      RunCoherent(store, ops[..n]);
      assert ops[n] in ops && Admissible(ops[n]);
      StepCoherent(Run(store, ops[..n]), ops[n]);
      StepGood(Run(store, ops[..n]), ops[n]);
    }
  }

  /**
   * A record's chain ends with the artifact it superseded, and a record is active
   * exactly when nothing has superseded it.
   */
  predicate Linked(meta: Meta) {
    && meta.supersedes == (if meta.chain == [] then None else Some(meta.chain[|meta.chain| - 1]))
    && (meta.active <==> meta.supersededBy.None?)
  }

  ghost predicate AllLinked(store: Store) {
    forall slot :: slot in store && store[slot].MetaFile? ==> Linked(store[slot].meta)
  }

  lemma RewrittenLinked(store: Store, scope: Scope, meta: Meta)
    requires AllLinked(store) && Linked(meta)
    ensures AllLinked(Rewritten(store, scope, meta))
  {
  }

  lemma SupersededLinked(store: Store, kind: Kind, name: string, successor: string)
    requires AllLinked(store)
    ensures AllLinked(Superseded(store, kind, name, successor))
  {
    var loaded := Load(store, Global, kind, name);
    if loaded.Some? {
      RewrittenLinked(store, Global, loaded.value.(active := false, supersededBy := Some(successor)));
    }
  }

  lemma InstalledLinked(store: Store, r: Request)
    requires AllLinked(store)
    ensures AllLinked(Installed(store, r))
  {
    if Accepted(r) && !UpToDate(store, r) {
      if PreviousOf(r).Some? {
        SupersededLinked(store, r.kind, PreviousOf(r).value, NameOf(r).value);
      }
      assert Linked(NewMeta(store, r));
      FilesLinked(WithPreviousMarked(store, r), r.scope, NewMeta(store, r), r.value);
    }
  }

  lemma FilesLinked(store: Store, scope: Scope, meta: Meta, value: Json)
    requires AllLinked(store) && Linked(meta)
    ensures AllLinked(store + Files(scope, meta, value))
  {
  }

  lemma StepLinked(store: Store, op: Op)
    requires AllLinked(store)
    ensures AllLinked(Step(store, op))
  {
    match op
    case Install(request) => InstalledLinked(store, request);
    case Supersede(kind, name, successor) => SupersededLinked(store, kind, name, successor);
    case Remove(kind, name) =>
    case Warn(kind, name, warnings) =>
      var loaded := Load(store, Global, kind, name);
      if loaded.Some? {
        RewrittenLinked(store, Global, loaded.value.(warnings := warnings));
      }
    case FileGone(scope, kind, name) =>
      var loaded := Load(store, scope, kind, name);
      if loaded.Some? {
        RewrittenLinked(store, scope, Gone(loaded.value));
      }
    case Backfill =>
  }

  /** Every run at all keeps the records linked. */
  lemma {:induction false} RunLinked(store: Store, ops: seq<Op>)
    requires AllLinked(store)
    ensures AllLinked(Run(store, ops))
  {
    if ops != [] {
      var n := |ops| - 1;
      RunLinked(store, ops[..n]);
      StepLinked(Run(store, ops[..n]), ops[n]);
    }
  }

  // ---- reinstalling ----

  /**
   * On a coherent catalog an installation is a no-op exactly when the active artifact
   * has a hash and its value is the requested one up to the order of object members.
   */
  lemma UpToDateExactly(store: Store, r: Request)
    requires Coherent(store) && Accepted(r) && WellFormed(r.value)
    ensures var slot := Slot(r.scope, r.kind, NameOf(r).value, Metadata);
            UpToDate(store, r) <==>
              && slot in store && store[slot].meta.active && store[slot].meta.hash.Some?
              && Reordered(store[At(slot, Artifact)].value, r.value)
  {
    var slot := Slot(r.scope, r.kind, NameOf(r).value, Metadata);
    if slot in store {
      assert Fits(store, slot);
      assert Fits(store, At(slot, SnapshotMetadata(store[slot].meta.version)));
      CanonicalEqual(store[At(slot, Artifact)].value, r.value);
    }
  }

  /** Installing an equal value again changes nothing, whatever else the second request says. */
  lemma ReinstallNothing(store: Store, r: Request, again: Request)
    requires Coherent(store) && Accepted(r) && WellFormed(r.value) && WellFormed(again.value)
    requires Accepted(again) && again.scope == r.scope && again.kind == r.kind && NameOf(again) == NameOf(r)
    requires Reordered(r.value, again.value)
    ensures Installed(Installed(store, r), again) == Installed(store, r)
  {
    CanonicalEqual(r.value, again.value);
    InstalledUpToDate(store, r, again);
  }

  lemma InstalledUpToDate(store: Store, r: Request, again: Request)
    requires Accepted(r) && Accepted(again)
    requires again.scope == r.scope && again.kind == r.kind && NameOf(again) == NameOf(r)
    requires Canonical(again.value) == Canonical(r.value)
    ensures UpToDate(Installed(store, r), again)
  {
    if !UpToDate(store, r) {
      FilesLoaded(WithPreviousMarked(store, r), r.scope, NewMeta(store, r), r.value);
    }
  }

  // ---- what an operation touches ----

  lemma SupersededFrame(store: Store, kind: Kind, name: string, successor: string, slot: Slot)
    requires Coherent(store)
    requires !(slot.scope.Global? && slot.kind == kind && slot.name == name
               && (slot.file.Metadata? || slot.file.SnapshotMetadata?))
    ensures var after := Superseded(store, kind, name, successor);
            (slot in after <==> slot in store) && (slot in store ==> after[slot] == store[slot])
  {
    var record := Slot(Global, kind, name, Metadata);
    assert record in store ==> Fits(store, record);
  }

  lemma SupersededEffect(store: Store, kind: Kind, name: string, successor: string)
    requires Coherent(store)
    ensures var was := Load(store, Global, kind, name);
            var now := Load(Superseded(store, kind, name, successor), Global, kind, name);
            now == (if was.Some? then Some(was.value.(active := false, supersededBy := Some(successor))) else None)
  {
    var record := Slot(Global, kind, name, Metadata);
    assert record in store ==> Fits(store, record);
  }

  /** The files of other artifacts are those the superseding step left. */
  lemma InstalledOthers(store: Store, r: Request, slot: Slot)
    requires Accepted(r)
    requires !(slot.scope == r.scope && slot.kind == r.kind && slot.name == NameOf(r).value)
    ensures var base := if UpToDate(store, r) then store else WithPreviousMarked(store, r);
            && (slot in Installed(store, r) <==> slot in base)
            && (slot in base ==> Installed(store, r)[slot] == base[slot])
  {
    if !UpToDate(store, r) {
      FilesApart(WithPreviousMarked(store, r), r.scope, NewMeta(store, r), r.value, slot);
    }
  }

  lemma FilesApart(store: Store, scope: Scope, meta: Meta, value: Json, slot: Slot)
    requires !(slot.scope == scope && slot.kind == meta.kind && slot.name == meta.name)
    ensures var after := store + Files(scope, meta, value);
            (slot in after <==> slot in store) && (slot in store ==> after[slot] == store[slot])
  {
  }

  /**
   * A project's installation supersedes the global artifact of the given name; an
   * artifact of that name in the project itself is left as it is.
   */
  lemma SupersedesGlobally(store: Store, r: Request, previous: string)
    requires Coherent(store) && Accepted(r) && !UpToDate(store, r)
    requires r.scope.Project? && PreviousOf(r) == Some(previous)
    ensures var after := Installed(store, r);
            var was, now := Load(store, Global, r.kind, previous), Load(after, Global, r.kind, previous);
            && now == (if was.Some? then Some(was.value.(active := false, supersededBy := NameOf(r))) else None)
            && (previous != NameOf(r).value ==>
                  Load(after, r.scope, r.kind, previous) == Load(store, r.scope, r.kind, previous))
  {
    SupersededEffect(store, r.kind, previous, NameOf(r).value);
    InstalledOthers(store, r, Slot(Global, r.kind, previous, Metadata));
    if previous != NameOf(r).value {
      InstalledOthers(store, r, Slot(r.scope, r.kind, previous, Metadata));
      SupersededFrame(store, r.kind, previous, NameOf(r).value, Slot(r.scope, r.kind, previous, Metadata));
    }
  }

  /** Nothing changes but the artifact's own files and the superseded artifact's metadata files. */
  lemma InstallFrame(store: Store, r: Request, slot: Slot)
    requires Coherent(store) && Accepted(r)
    requires !(slot.scope == r.scope && slot.kind == r.kind && slot.name == NameOf(r).value)
    requires !(slot.scope.Global? && slot.kind == r.kind && PreviousOf(r) == Some(slot.name)
               && (slot.file.Metadata? || slot.file.SnapshotMetadata?))
    ensures slot in Installed(store, r) <==> slot in store
    ensures slot in store ==> Installed(store, r)[slot] == store[slot]
  {
    InstalledOthers(store, r, slot);
    if PreviousOf(r).Some? {
      SupersededFrame(store, r.kind, PreviousOf(r).value, NameOf(r).value, slot);
    }
  }
}
