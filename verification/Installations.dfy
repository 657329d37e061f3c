/**
 * What an installation reads out of its request and what it records (src/artifacts.rs),
 * on any disk: the members of the value that name an artifact, and the record and the
 * chain of superseded artifacts that are on disk afterwards.
 */
module Installations {
  import opened Wrappers
  import opened Text
  import opened CanonicalJson
  import opened ArtifactPaths
  import opened ArtifactCatalog
  import opened ArtifactDisk

  // ---- what a request asks for ----

  /** The value has this member. */
  predicate Has(value: Json, key: string, member: Json) {
    value.Obj? && Member(key, member) in value.members
  }

  lemma {:induction false} FoundMember(members: seq<Member>, key: string, found: Json)
    requires UniqueKeys(members)
    ensures Find(members, key) == Some(found) <==> Member(key, found) in members
  {
    if members != [] {
      var first, rest := members[0], members[1..];
      assert members == [first] + rest;
      assert forall i, j :: 0 <= i < j < |rest| ==> rest[i] == members[i + 1] && rest[j] == members[j + 1];
      FoundMember(rest, key, found);
      assert forall m :: m in rest ==> m.key != first.key;
    }
  }

  lemma GotMember(value: Json, key: string, found: Json)
    requires WellFormed(value)
    ensures Get(value, key) == Some(found) <==> Has(value, key, found)
  {
    if value.Obj? {
      FoundMember(value.members, key, found);
    }
  }

  /** The name is the one given, or else the text of `name` in the value; packets are named by their `domain`. */
  lemma NameAskedFor(r: Request, name: string)
    requires WellFormed(r.value)
    ensures NameOf(r) == Some(name)
            <==> r.name == Some(name)
                 || (r.name.None? && Has(r.value, if r.kind == Kind.Packet then "domain" else "name", Str(name)))
  {
    GotMember(r.value, if r.kind == Kind.Packet then "domain" else "name", Str(name));
  }

  /** The version is the one given, or else `version` in the value: a text that is not blank, or a number. */
  lemma VersionAskedFor(r: Request, version: string)
    requires WellFormed(r.value)
    ensures VersionOf(r) == Some(version)
            <==> r.version == Some(version)
                 || (r.version.None? && ((Has(r.value, "version", Str(version)) && !Blank(version))
                                         || Has(r.value, "version", Num(version))))
  {
    GotMember(r.value, "version", Str(version));
    GotMember(r.value, "version", Num(version));
    TrimmedBlank(version);
  }

  /** What is superseded is the artifact given, or else `supersedes` in the value, a text that is not blank. */
  lemma PreviousAskedFor(r: Request, previous: string)
    requires WellFormed(r.value)
    ensures PreviousOf(r) == Some(previous)
            <==> r.supersedes == Some(previous)
                 || (r.supersedes.None? && Has(r.value, "supersedes", Str(previous)) && !Blank(previous))
  {
    GotMember(r.value, "supersedes", Str(previous));
    TrimmedBlank(previous);
  }

  // ---- what is recorded ----

  lemma SecondOfFour<K, V>(m: map<K, V>, a: K, b: K, c: K, d: K, x: V, y: V)
    requires c != b && d != b
    ensures var written := m[a := x][b := y][c := x][d := y];
            b in written && written[b] == y
  {
  }

  lemma MetadataAdded(disk: Disk, scope: Scope, meta: Meta, value: Json)
    ensures var path := MetadataPath(scope, meta.kind, meta.name);
            path in Added(disk, scope, meta, value) && Added(disk, scope, meta, value)[path] == MetaFile(meta)
  {
    var slot := Slot(scope, meta.kind, meta.name, File.Artifact);
    SnapshotsElsewhere(scope, meta.kind, meta.name, meta.version);
    SecondOfFour(disk, PathOf(slot), PathOf(At(slot, Metadata)), PathOf(At(slot, Snapshot(meta.version))),
                 PathOf(At(slot, SnapshotMetadata(meta.version))), ValueFile(value), MetaFile(meta));
  }

  lemma MetadataLast(disk: Disk, scope: Scope, meta: Meta, value: Json)
    requires ValidName(meta.name)
    ensures Read(Added(disk, scope, meta, value), scope, meta.kind, meta.name) == Some(meta)
  {
    MetadataAdded(disk, scope, meta, value);
  }

  lemma SnapshotsElsewhere(scope: Scope, kind: Kind, name: string, version: string)
    ensures PathOf(Slot(scope, kind, name, Snapshot(version))) != PathOf(Slot(scope, kind, name, Metadata))
    ensures PathOf(Slot(scope, kind, name, SnapshotMetadata(version))) != PathOf(Slot(scope, kind, name, Metadata))
  {
    PathLength(Slot(scope, kind, name, Metadata));
    PathLength(Slot(scope, kind, name, Snapshot(version)));
    PathLength(Slot(scope, kind, name, SnapshotMetadata(version)));
  }

  lemma PathLength(slot: Slot)
    ensures |PathOf(slot)| == |Base(slot.scope, slot.kind)| + |Directory(Parts(slot.name), slot.file)| + 1
    ensures slot.file.Metadata? ==> |Directory(Parts(slot.name), slot.file)| == |Parts(slot.name)|
    ensures IsSnapshot(slot.file) ==> |Directory(Parts(slot.name), slot.file)| == |Parts(slot.name)| + 1
  {
  }

  /** The request is accepted, and not because its value is installed already. */
  predicate Installs(disk: Disk, r: Request) {
    Accepted(r) && !HasContent(Read(disk, r.scope, r.kind, NameOf(r).value), r)
  }

  /**
   * The record on disk after an installation: what the request says, active, with the
   * hash of the value and no warnings, superseded by nothing.
   */
  lemma RecordInstalled(disk: Disk, r: Request)
    requires Installs(disk, r)
    ensures var name := NameOf(r).value;
            Read(InstalledAt(disk, r), r.scope, r.kind, name)
            == Some(Meta(r.kind, name, VersionOf(r).value, r.source, r.now, Some(Canonical(r.value)),
                         (if r.scope.Project? then Some(r.scope.projectId) else None),
                         r.scope.Project? && r.scope.local, PreviousOf(r), ChainAt(disk, r), None, true, []))
  {
    NewlyInstalled(disk, r);
    MetadataLast(WithPreviousMarkedAt(disk, r), r.scope, MetaOf(r, ChainAt(disk, r)), r.value);
  }

  /**
   * The chain of the new record: that of the global artifact superseded, if it has a
   * record, and then its name; empty when nothing is superseded.
   */
  lemma ChainInstalled(disk: Disk, r: Request)
    requires Installs(disk, r)
    ensures var record := Read(InstalledAt(disk, r), r.scope, r.kind, NameOf(r).value);
            && record.Some?
            && (PreviousOf(r).None? ==> record.value.chain == [])
            && forall p :: PreviousOf(r) == Some(p) ==>
                 record.value.chain
                 == (match Read(disk, Global, r.kind, p)
                     case Some(was) => was.chain + [p]
                     case None => [p])
  {
    RecordInstalled(disk, r);
  }

  // ---- chains over runs ----

  /** A global installation that is carried out and supersedes `previous`. */
  predicate Follows(disk: Disk, kind: Kind, r: Request, previous: Option<string>) {
    r.scope == Global && r.kind == kind && Installs(disk, r) && PreviousOf(r) == previous
  }

  /** Installation `i` supersedes the artifact of the one before, the first none. */
  predicate Succeeds(disks: seq<Disk>, kind: Kind, rs: seq<Request>, i: nat)
    requires |disks| == |rs| + 1 && i < |rs|
  {
    && Follows(disks[i], kind, rs[i], if i == 0 then None else NameOf(rs[i - 1]))
    && disks[i + 1] == InstalledAt(disks[i], rs[i])
  }

  ghost predicate Succession(disks: seq<Disk>, kind: Kind, rs: seq<Request>) {
    |disks| == |rs| + 1 && forall i: nat :: i < |rs| ==> Succeeds(disks, kind, rs, i)
  }

  /** The global record of the artifact that the request names. */
  predicate RecordOf(disk: Disk, r: Request, meta: Meta) {
    NameOf(r).Some? && Read(disk, Global, r.kind, NameOf(r).value) == Some(meta)
  }

  lemma StepOf(disks: seq<Disk>, kind: Kind, rs: seq<Request>, n: nat)
    requires Succession(disks, kind, rs) && n < |rs|
    ensures Succeeds(disks, kind, rs, n)
  {
  }

  /** What an installation of the run records. */
  lemma StepRecorded(disks: seq<Disk>, kind: Kind, rs: seq<Request>, n: nat) returns (meta: Meta)
    requires Succession(disks, kind, rs) && n < |rs|
    ensures RecordOf(disks[n + 1], rs[n], meta) && rs[n].kind == kind
    ensures n == 0 ==> meta.chain == []
    ensures n > 0 ==> forall was :: RecordOf(disks[n], rs[n - 1], was) && rs[n - 1].kind == kind ==>
                        meta.chain == was.chain + [NameOf(rs[n - 1]).value]
  {
    StepOf(disks, kind, rs, n);
    ChainInstalled(disks[n], rs[n]);
    meta := Read(disks[n + 1], Global, kind, NameOf(rs[n]).value).value;
  }

  /** The chain names the artifacts of the first `n` requests, in their order. */
  predicate NamesOf(rs: seq<Request>, n: nat, chain: seq<string>)
    requires n <= |rs|
  {
    |chain| == n && forall i :: 0 <= i < n ==> NameOf(rs[i]) == Some(chain[i])
  }

  lemma OneNameMore(rs: seq<Request>, n: nat, chain: seq<string>, more: seq<string>)
    requires n < |rs| && NamesOf(rs, n, chain) && NameOf(rs[n]).Some? && more == chain + [NameOf(rs[n]).value]
    ensures NamesOf(rs, n + 1, more)
  {
  }

  /** In such a run every record names all the artifacts before it, oldest first. */
  lemma {:induction false} ChainOfRun(disks: seq<Disk>, kind: Kind, rs: seq<Request>, n: nat) returns (meta: Meta)
    requires Succession(disks, kind, rs) && n < |rs|
    ensures RecordOf(disks[n + 1], rs[n], meta) && rs[n].kind == kind
    ensures NamesOf(rs, n, meta.chain)
    decreases n
  {
    meta := StepRecorded(disks, kind, rs, n);
    if n > 0 {
      var was := ChainOfRun(disks, kind, rs, n - 1);
      OneNameMore(rs, n - 1, was.chain, meta.chain);
    }
  }
}
