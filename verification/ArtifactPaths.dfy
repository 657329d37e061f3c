/**
 * Where the artifact catalog keeps its files (src/artifacts.rs): the path layout, the
 * names and versions it accepts, and the pairs of files that share a path.
 */
module ArtifactPaths {
  import opened Wrappers
  import opened Text

  datatype Kind = Workflow | Packet | Brofile | Agent | Atom | Team | Cron

  datatype Scope = Global | Project(projectId: string, local: bool)

  /** The four kinds of file an artifact has. */
  datatype File = Artifact | Metadata | Snapshot(version: string) | SnapshotMetadata(version: string)

  datatype Slot = Slot(scope: Scope, kind: Kind, name: string, file: File)

  /** A path below the catalog's root, by components. */
  type Path = seq<string>

  function KindDir(kind: Kind): string {
    match kind
    case Workflow => "workflow"
    case Packet => "packet"
    case Brofile => "brofile"
    case Agent => "agent"
    case Atom => "atom"
    case Team => "team"
    case Cron => "cron"
  }

  predicate EndsWith(s: string, suffix: string) {
    |s| >= |suffix| && s[|s| - |suffix|..] == suffix
  }

  function Parts(name: string): seq<string> {
    SplitAll(name, '/')
  }

  predicate BadPart(part: string) {
    part == "" || part == "." || part == ".." || EndsWith(part, ".json") || EndsWith(part, ".metadata")
  }

  /** `validate_artifact_name` */
  predicate ValidName(name: string) {
    && Trim(name) != ""
    && !("/" <= name)
    && '\\' !in name
    && forall part :: part in Parts(name) ==> !BadPart(part)
  }

  /** `validate_version_component`, which reading a version checks and installing one does not. */
  predicate ValidVersion(version: string) {
    Trim(version) != "" && '/' !in version && '\\' !in version && version != "." && version != ".."
  }

  function ScopeRoot(scope: Scope): Path {
    match scope
    case Global => []
    case Project(projectId, local) => ["projects", projectId, if local then "local" else "committed"]
  }

  function Base(scope: Scope, kind: Kind): Path {
    ScopeRoot(scope) + [KindDir(kind)]
  }

  /** A file's directory, below that of its kind, ... */
  function Directory(parts: seq<string>, file: File): seq<string>
    requires parts != []
  {
    match file
    case Artifact => parts[..|parts| - 1]
    case Metadata => parts
    case _ => parts + [".versions"]
  }

  /** ... and its name there, short of `.json`. */
  function Stem(parts: seq<string>, file: File): string
    requires parts != []
  {
    match file
    case Artifact => parts[|parts| - 1]
    case Metadata => "metadata"
    case Snapshot(version) => "v" + version
    case SnapshotMetadata(version) => "v" + version + ".metadata"
  }

  function Below(parts: seq<string>, file: File): seq<string>
    requires parts != []
  {
    Directory(parts, file) + [Stem(parts, file) + ".json"]
  }

  function PathOf(slot: Slot): Path {
    Base(slot.scope, slot.kind) + Below(Parts(slot.name), slot.file)
  }

  function DirectoryOf(scope: Scope, kind: Kind, name: string): Path {
    Base(scope, kind) + Parts(name)
  }

  function WithSuffix(parts: seq<string>, suffix: string): seq<string>
    requires parts != []
  {
    parts[..|parts| - 1] + [parts[|parts| - 1] + suffix]
  }

  /** `name_path`: the suffix goes to the last part only. */
  method NamePath(name: string, suffix: string) returns (r: Result<Path, ()>)
    ensures r.Ok? <==> ValidName(name)
    ensures r.Ok? ==> r.value == WithSuffix(Parts(name), "." + suffix)
  {
    if !ValidName(name) {
      return Err(());
    }
    var path := PushParts(Parts(name), "." + suffix);
    return Ok(path);
  }

  method PushParts(parts: seq<string>, ending: string) returns (path: Path)
    requires parts != []
    ensures path == WithSuffix(parts, ending)
  {
    path := [];
    for i := 0 to |parts|
      invariant path == if i < |parts| then parts[..i] else WithSuffix(parts, ending)
    {
      path := path + [if i + 1 < |parts| then parts[i] else parts[i] + ending];
    }
  }

  /** `name_dir_path` */
  method NameDirPath(name: string) returns (r: Result<Path, ()>)
    ensures r.Ok? <==> ValidName(name)
    ensures r.Ok? ==> r.value == Parts(name)
  {
    if !ValidName(name) {
      return Err(());
    }
    var parts := Parts(name);
    var path := [];
    for i := 0 to |parts|
      invariant path == parts[..i]
    {
      path := path + [parts[i]];
    }
    return Ok(path);
  }

  // ---- collisions ----

  predicate PlainScope(scope: Scope) {
    scope.Project? ==>
      scope.projectId != "" && '/' !in scope.projectId && scope.projectId != "." && scope.projectId != ".."
  }

  predicate ValidFile(file: File) {
    (file.Snapshot? || file.SnapshotMetadata?) ==> ValidVersion(file.version)
  }

  /** A file as the checks on names and versions allow it. */
  predicate Plain(slot: Slot) {
    PlainScope(slot.scope) && ValidName(slot.name) && ValidFile(slot.file)
  }

  /** The three ways two files come to share a path: */
  predicate ClashBelow(ps: seq<string>, f: File, qs: seq<string>, g: File) {
    // an artifact `m/metadata` and the metadata of `m`,
    || (f.Artifact? && g.Metadata? && ps == qs + ["metadata"])
    // an artifact `m/.versions/v<version>` and the snapshot of `m` at that version,
    || (f.Artifact? && g.Snapshot? && ps == qs + [".versions", "v" + g.version])
    // a snapshot at version `<version>.metadata` and the metadata of the snapshot at `<version>`.
    || (f.Snapshot? && g.SnapshotMetadata? && ps == qs && f.version == g.version + ".metadata")
  }

  predicate Clash(a: Slot, b: Slot) {
    a.scope == b.scope && a.kind == b.kind && ClashBelow(Parts(a.name), a.file, Parts(b.name), b.file)
  }

  predicate GoodParts(parts: seq<string>) {
    parts != [] && !BadPart(parts[|parts| - 1])
  }

  lemma CutSuffix(a: string, b: string, suffix: string)
    ensures a + suffix == b + suffix <==> a == b
  {
    if a + suffix == b + suffix {
      assert a == (a + suffix)[..|a|];
      assert b == (b + suffix)[..|b|];
    }
  }

  lemma CutPrefix(prefix: string, a: string, b: string)
    ensures prefix + a == prefix + b <==> a == b
  {
    if prefix + a == prefix + b {
      assert a == (prefix + a)[|prefix|..];
      assert b == (prefix + b)[|prefix|..];
    }
  }

  lemma LastAgree<T>(a: seq<T>, x: T, b: seq<T>, y: T)
    ensures a + [x] == b + [y] <==> a == b && x == y
  {
    if a + [x] == b + [y] {
      assert a == (a + [x])[..|a|] && x == (a + [x])[|a|];
      assert b == (b + [y])[..|b|] && y == (b + [y])[|b|];
    }
  }

  lemma DotOrFirst(a: string, b: string)
    ensures "v" + a == "v" + b <==> a == b
    ensures "v" + a + ".metadata" == "v" + b + ".metadata" <==> a == b
    ensures "v" + a == "v" + b + ".metadata" <==> a == b + ".metadata"
  {
    CutPrefix("v", a, b);
    CutSuffix("v" + a, "v" + b, ".metadata");
    assert "v" + b + ".metadata" == "v" + (b + ".metadata");
    CutPrefix("v", a, b + ".metadata");
  }

  lemma SuffixBad(a: string)
    ensures BadPart(a + ".metadata") && a + ".metadata" != "metadata"
  {
    var s := a + ".metadata";
    assert s[|s| - 9..] == ".metadata";
    assert |a| == 0 ==> s[0] == '.';
  }

  lemma VersionedStem(version: string)
    ensures ("v" + version)[0] == 'v' && ("v" + version + ".metadata")[0] == 'v'
    ensures "v" + version != "metadata" && "v" + version + ".metadata" != "metadata"
  {
    assert "metadata"[0] == 'm';
  }

  lemma LastPart(ps: seq<string>, dir: seq<string>, last: string)
    requires ps != []
    ensures ps[..|ps| - 1] == dir && ps[|ps| - 1] == last <==> ps == dir + [last]
  {
    assert ps == ps[..|ps| - 1] + [ps[|ps| - 1]];
    LastAgree(ps[..|ps| - 1], ps[|ps| - 1], dir, last);
  }

  lemma SameBelow(ps: seq<string>, f: File, qs: seq<string>, g: File)
    requires ps != [] && qs != []
    ensures Below(ps, f) == Below(qs, g) <==>
              Directory(ps, f) == Directory(qs, g) && Stem(ps, f) == Stem(qs, g)
  {
    LastAgree(Directory(ps, f), Stem(ps, f) + ".json", Directory(qs, g), Stem(qs, g) + ".json");
    CutSuffix(Stem(ps, f), Stem(qs, g), ".json");
  }

  lemma SameVersions(ps: seq<string>, qs: seq<string>)
    ensures ps + [".versions"] == qs + [".versions"] <==> ps == qs
  {
    LastAgree(ps, ".versions", qs, ".versions");
  }

  lemma ArtifactCollides(ps: seq<string>, qs: seq<string>, g: File)
    requires GoodParts(ps) && GoodParts(qs)
    ensures Below(ps, Artifact) == Below(qs, g) <==>
              (g.Artifact? && ps == qs) || ClashBelow(ps, Artifact, qs, g)
  {
    SameBelow(ps, Artifact, qs, g);
    LastPart(ps, Directory(qs, g), Stem(qs, g));
    match g
    case Artifact => assert qs == qs[..|qs| - 1] + [qs[|qs| - 1]];
    case Metadata =>
    case Snapshot(version) => assert qs + [".versions", "v" + version] == qs + [".versions"] + ["v" + version];
    case SnapshotMetadata(version) => SuffixBad("v" + version);
  }

  lemma OthersCollide(ps: seq<string>, f: File, qs: seq<string>, g: File)
    requires GoodParts(ps) && GoodParts(qs) && !f.Artifact? && !g.Artifact?
    ensures Below(ps, f) == Below(qs, g) <==>
              (ps == qs && f == g) || ClashBelow(ps, f, qs, g) || ClashBelow(qs, g, ps, f)
  {
    SameBelow(ps, f, qs, g);
    SameVersions(ps, qs);
    if !f.Metadata? && !g.Metadata? {
      DotOrFirst(f.version, g.version);
      DotOrFirst(g.version, f.version);
    } else if !f.Metadata? {
      VersionedStem(f.version);
    } else if !g.Metadata? {
      VersionedStem(g.version);
    }
  }

  lemma BelowCollides(ps: seq<string>, f: File, qs: seq<string>, g: File)
    requires GoodParts(ps) && GoodParts(qs)
    ensures Below(ps, f) == Below(qs, g) <==>
              (ps == qs && f == g) || ClashBelow(ps, f, qs, g) || ClashBelow(qs, g, ps, f)
  {
    if f.Artifact? {
      ArtifactCollides(ps, qs, g);
      if g.Artifact? {
        ArtifactCollides(qs, ps, f);
      }
    } else if g.Artifact? {
      ArtifactCollides(qs, ps, f);
    } else {
      OthersCollide(ps, f, qs, g);
    }
  }

  lemma KindDirs(k: Kind, l: Kind)
    ensures KindDir(k) == KindDir(l) <==> k == l
    ensures KindDir(k) != "projects"
  {
    assert |KindDir(k)| <= 8 && |"projects"| == 8;
    assert "workflow"[0] == 'w' && "projects"[0] == 'p';
    assert "agent"[1] == 'g' && "packet"[0] == 'p' && "atom"[1] == 't' && "team"[0] == 't' && "cron"[0] == 'c';
  }

  /** What lies below different kinds or scopes never meets. */
  lemma SameBase(s: Scope, k: Kind, below: seq<string>, t: Scope, l: Kind, below': seq<string>)
    requires below != [] && below' != []
    ensures Base(s, k) + below == Base(t, l) + below' <==> s == t && k == l && below == below'
  {
    KindDirs(k, l);
    KindDirs(l, k);
    var a, b := Base(s, k) + below, Base(t, l) + below';
    if a == b {
      assert a[0] == (if s.Global? then KindDir(k) else "projects");
      assert b[0] == (if t.Global? then KindDir(l) else "projects");
      assert s.Project? <==> t.Project?;
      if s.Project? {
        assert a[1] == s.projectId && b[1] == t.projectId;
        assert a[2] == (if s.local then "local" else "committed");
        assert b[2] == (if t.local then "local" else "committed");
        assert |"local"| != |"committed"|;
        assert a[3] == KindDir(k) && b[3] == KindDir(l);
      }
      assert below == a[|Base(s, k)|..] && below' == b[|Base(t, l)|..];
    }
  }

  lemma SameName(a: string, b: string)
    ensures Parts(a) == Parts(b) <==> a == b
  {
    JoinSplitAll(a, '/');
    JoinSplitAll(b, '/');
  }

  lemma ValidParts(name: string)
    requires ValidName(name)
    ensures GoodParts(Parts(name))
  {
    var parts := Parts(name);
    assert parts[|parts| - 1] in parts;
  }

  /** Two files share a path only when they are the same, or clash in one of the three ways. */
  lemma CollisionExactly(a: Slot, b: Slot)
    requires Plain(a) && Plain(b)
    ensures PathOf(a) == PathOf(b) <==> a == b || Clash(a, b) || Clash(b, a)
  {
    var ps, qs := Parts(a.name), Parts(b.name);
    ValidParts(a.name);
    ValidParts(b.name);
    SameBase(a.scope, a.kind, Below(ps, a.file), b.scope, b.kind, Below(qs, b.file));
    BelowCollides(ps, a.file, qs, b.file);
    SameName(a.name, b.name);
  }

  // ---- names that keep the files apart ----

  /** Not `m/metadata`, `metadata`, `m/.versions` or `m/.versions/v...`. */
  predicate Unreserved(parts: seq<string>)
    requires parts != []
  {
    var n := |parts|;
    && parts[n - 1] != "metadata"
    && (n >= 2 ==> parts[n - 1] != ".versions")
    && (n >= 3 ==> !(parts[n - 2] == ".versions" && "v" <= parts[n - 1]))
  }

  predicate GoodName(name: string) {
    ValidName(name) && Unreserved(Parts(name))
  }

  predicate GoodVersion(version: string) {
    ValidVersion(version) && !EndsWith(version, ".metadata")
  }

  predicate GoodFile(file: File) {
    (file.Snapshot? || file.SnapshotMetadata?) ==> GoodVersion(file.version)
  }

  predicate Good(slot: Slot) {
    PlainScope(slot.scope) && GoodName(slot.name) && GoodFile(slot.file)
  }

  lemma PairEnd(parts: seq<string>, x: string, y: string)
    ensures var all := parts + [x, y]; all[|all| - 2] == x && all[|all| - 1] == y
  {
  }

  lemma SuffixEnds(a: string, suffix: string)
    ensures EndsWith(a + suffix, suffix)
  {
  }

  lemma NoClash(a: Slot, b: Slot)
    requires Good(a) && Good(b)
    ensures !Clash(a, b)
  {
    if b.file.Snapshot? || b.file.SnapshotMetadata? {
      PairEnd(Parts(b.name), ".versions", "v" + b.file.version);
      SuffixEnds(b.file.version, ".metadata");
    }
  }

  /** Between them, no two files share a path. */
  lemma PathsApart(a: Slot, b: Slot)
    requires Good(a) && Good(b)
    ensures PathOf(a) == PathOf(b) <==> a == b
  {
    NoClash(a, b);
    NoClash(b, a);
    CollisionExactly(a, b);
  }

  // ---- names below names ----

  function Child(name: string, part: string): string {
    name + ['/'] + part
  }

  lemma ChildParts(name: string, part: string)
    requires '/' !in part
    ensures Parts(Child(name, part)) == Parts(name) + [part]
  {
    SplitAllConcat(name, '/', part);
  }

  lemma LongerNotBlank(s: string, t: string)
    requires Trim(s) != ""
    ensures Trim(s + t) != ""
  {
    TrimmedBlank(s);
    TrimmedBlank(s + t);
    var i :| 0 <= i < |s| && !IsWhitespace(s[i]);
    assert (s + t)[i] == s[i];
  }

  lemma NotBlank(s: string)
    requires s != "" && NoTrailingSpace(s)
    ensures Trim(s) != ""
  {
    NotBlankAt(s, |s| - 1);
  }

  lemma VersionPart(version: string, last: string)
    requires ValidVersion(version) && last == "v" + version
    ensures '/' !in last && '\\' !in last && last !in {"", ".", ".."}
  {
    assert last[0] == 'v' && last[1..] == version;
  }

  // ---- directories ----

  predicate Inside(path: Path, dir: Path) {
    dir < path
  }

  /** The directory that removing `name` deletes. */
  predicate OwnedBy(slot: Slot, scope: Scope, kind: Kind, name: string) {
    && slot.scope == scope && slot.kind == kind
    && (Parts(name) < Parts(slot.name) || (slot.name == name && !slot.file.Artifact?))
  }

  lemma PrefixSnoc<T>(a: seq<T>, b: seq<T>, x: T)
    ensures a <= b + [x] <==> a <= b || a == b + [x]
    ensures a < b + [x] <==> a <= b
  {
    var all := b + [x];
    assert all[..|b|] == b;
    if |a| <= |b| {
      assert all[..|a|] == b[..|a|];
    }
  }

  predicate IsSnapshot(file: File) {
    file.Snapshot? || file.SnapshotMetadata?
  }

  lemma InsideBelow(ps: seq<string>, f: File, qs: seq<string>)
    requires ps != [] && qs != []
    ensures qs < Below(ps, f) <==> qs < ps || (ps == qs && !f.Artifact?) || (IsSnapshot(f) && qs == ps + [".versions"])
  {
    PrefixSnoc(qs, Directory(ps, f), Stem(ps, f) + ".json");
    match f
    case Artifact =>
      assert ps == ps[..|ps| - 1] + [ps[|ps| - 1]];
      PrefixSnoc(qs, ps[..|ps| - 1], ps[|ps| - 1]);
    case Metadata =>
    case _ =>
      PrefixSnoc(qs, ps, ".versions");
  }

  lemma CutBase<T>(base: seq<T>, a: seq<T>, b: seq<T>)
    ensures base + a < base + b <==> a < b
  {
    var s, t := base + a, base + b;
    assert s[|base|..] == a && t[|base|..] == b;
    if s < t {
      assert t[..|s|][|base|..] == b[..|a|];
    }
    if a < b {
      assert t[..|s|] == base + b[..|a|];
    }
  }

  lemma InsideBase(s: Scope, k: Kind, t: Scope, l: Kind, below: seq<string>, qs: seq<string>)
    requires qs != [] && below != []
    ensures Base(t, l) + qs < Base(s, k) + below <==> s == t && k == l && qs < below
  {
    var a, b := Base(t, l) + qs, Base(s, k) + below;
    CutBase(Base(t, l), qs, below);
    if a < b {
      var rest := b[|a|..];
      assert b == Base(t, l) + (qs + rest);
      SameBase(s, k, below, t, l, qs + rest);
    }
  }

  /** The directory of `name` is where the artifact of `slot` keeps its snapshots. */
  predicate IsVersionsOf(name: string, slot: Slot, scope: Scope, kind: Kind) {
    && slot.scope == scope && slot.kind == kind && IsSnapshot(slot.file)
    && name == Child(slot.name, ".versions")
  }

  /** What lies in the directory that removing `name` deletes. */
  lemma DirectoryContents(slot: Slot, scope: Scope, kind: Kind, name: string)
    ensures Inside(PathOf(slot), DirectoryOf(scope, kind, name))
            <==> OwnedBy(slot, scope, kind, name) || IsVersionsOf(name, slot, scope, kind)
  {
    var ps, qs := Parts(slot.name), Parts(name);
    InsideBase(slot.scope, slot.kind, scope, kind, Below(ps, slot.file), qs);
    InsideBelow(ps, slot.file, qs);
    SameName(slot.name, name);
    VersionsDirectory(slot.name, name);
  }

  lemma VersionsDirectory(m: string, name: string)
    ensures Parts(name) == Parts(m) + [".versions"] <==> name == Child(m, ".versions")
  {
    VersionsParts(m);
    SameName(name, Child(m, ".versions"));
  }

  lemma VersionsParts(m: string)
    ensures Parts(Child(m, ".versions")) == Parts(m) + [".versions"]
  {
    NoSlash();
    ChildParts(m, ".versions");
  }

  lemma NoSlash()
    ensures '/' !in ".versions" && '/' !in "metadata"
  {
  }

  /** Not `m/.versions` for an accepted name `m`. */
  ghost predicate OwnsDirectory(name: string) {
    forall m :: name == Child(m, ".versions") ==> !ValidName(m)
  }

  /** Removing `name` deletes the files of that artifact and of the artifacts below it, and no others. */
  lemma DirectoryHolds(slot: Slot, scope: Scope, kind: Kind, name: string)
    requires Plain(slot) && OwnsDirectory(name)
    ensures Inside(PathOf(slot), DirectoryOf(scope, kind, name)) <==> OwnedBy(slot, scope, kind, name)
  {
    DirectoryContents(slot, scope, kind, name);
  }

  /** So it does for every file exactly when `name` is not `m/.versions`. */
  lemma DirectoryHoldsExactly(scope: Scope, kind: Kind, name: string)
    requires PlainScope(scope)
    ensures (forall slot :: Plain(slot) ==>
               (Inside(PathOf(slot), DirectoryOf(scope, kind, name)) <==> OwnedBy(slot, scope, kind, name)))
            <==> OwnsDirectory(name)
  {
    if OwnsDirectory(name) {
      forall slot | Plain(slot)
        ensures Inside(PathOf(slot), DirectoryOf(scope, kind, name)) <==> OwnedBy(slot, scope, kind, name)
      {
        DirectoryHolds(slot, scope, kind, name);
      }
    } else {
      var m :| name == Child(m, ".versions") && ValidName(m);
      var slot := Slot(scope, kind, m, Snapshot("1"));
      VersionOne();
      assert Plain(slot);
      SnapshotNotOwned(slot, scope, kind, name);
    }
  }

  lemma SnocNotPrefix(parts: seq<string>, last: string)
    ensures !(parts + [last] <= parts)
  {
  }

  lemma SnapshotNotOwned(slot: Slot, scope: Scope, kind: Kind, name: string)
    requires slot == Slot(scope, kind, slot.name, Snapshot("1")) && name == Child(slot.name, ".versions")
    ensures Inside(PathOf(slot), DirectoryOf(scope, kind, name)) && !OwnedBy(slot, scope, kind, name)
  {
    DirectoryContents(slot, scope, kind, name);
    NoSlash();
    ChildNotAbove(slot.name, ".versions");
  }

  lemma ChildNotAbove(m: string, part: string)
    requires '/' !in part
    ensures !(Parts(Child(m, part)) < Parts(m)) && Child(m, part) != m
  {
    ChildParts(m, part);
    SnocNotPrefix(Parts(m), part);
  }

  lemma VersionOne()
    ensures ValidVersion("1")
  {
    NotBlank("1");
  }

  // ---- removable names ----

  /** Not `m/.versions`, `m/metadata` or `m/.versions/v<version>` for names and versions that keep files apart. */
  ghost predicate Removable(name: string) {
    && (forall m :: GoodName(m) ==> name != Child(m, ".versions") && name != Child(m, "metadata"))
    && (forall m, version :: GoodName(m) && GoodVersion(version) ==>
                               name != Child(Child(m, ".versions"), "v" + version))
  }

  lemma GoodIsPlain(slot: Slot)
    requires Good(slot)
    ensures Plain(slot)
  {
  }

  /** The artifact file of a removable name is no other good file. */
  lemma ArtifactApart(s: Slot, x: Slot)
    requires Good(s) && Plain(x) && x.file.Artifact? && Removable(x.name)
    ensures PathOf(s) == PathOf(x) <==> s == x
  {
    GoodIsPlain(s);
    CollisionExactly(s, x);
    NoArtifactClash(s, x);
  }

  lemma NoArtifactClash(s: Slot, x: Slot)
    requires Good(s) && x.file.Artifact? && Removable(x.name)
    ensures !Clash(s, x) && !Clash(x, s)
  {
    if s.file.Metadata? {
      ChildParts(s.name, "metadata");
      SameName(x.name, Child(s.name, "metadata"));
    } else if s.file.Snapshot? {
      SnapshotApart(s.name, s.file.version, x.name);
    }
  }

  lemma SnapshotApart(m: string, version: string, name: string)
    requires '/' !in version && name != Child(Child(m, ".versions"), "v" + version)
    ensures Parts(name) != Parts(m) + [".versions", "v" + version]
  {
    var last := "v" + version;
    assert last[0] == 'v' && last[1..] == version;
    ChildParts(m, ".versions");
    ChildParts(Child(m, ".versions"), last);
    assert Parts(m) + [".versions"] + [last] == Parts(m) + [".versions", last];
    SameName(name, Child(Child(m, ".versions"), last));
  }

  /** Its directory holds what it owns of the good files. */
  lemma GoodDirectory(slot: Slot, kind: Kind, name: string)
    requires Good(slot) && Removable(name)
    ensures Inside(PathOf(slot), DirectoryOf(Global, kind, name)) <==> OwnedBy(slot, Global, kind, name)
  {
    DirectoryContents(slot, Global, kind, name);
  }

  /** A metadata file of any accepted name is no other good file. */
  lemma MetadataApart(s: Slot, x: Slot)
    requires Good(s) && Plain(x) && x.file.Metadata?
    ensures PathOf(s) == PathOf(x) <==> s == x
  {
    GoodIsPlain(s);
    CollisionExactly(s, x);
    NoMetadataClash(s, x);
  }

  lemma NoMetadataClash(s: Slot, x: Slot)
    requires Good(s) && x.file.Metadata?
    ensures !Clash(s, x) && !Clash(x, s)
  {
    NoMetadataBelow(Parts(s.name), s.file, Parts(x.name), x.file);
  }

  lemma NoMetadataBelow(ps: seq<string>, f: File, qs: seq<string>, g: File)
    requires ps != [] && Unreserved(ps) && g.Metadata?
    ensures !ClashBelow(ps, f, qs, g) && !ClashBelow(qs, g, ps, f)
  {
    assert (qs + ["metadata"])[|qs|] == "metadata";
  }

  // ---- what a walk over the catalog takes a file for ----

  predicate NamesMetadata(path: Path) {
    path != [] && path[|path| - 1] == "metadata.json"
  }

  predicate NamesSnapshotMetadata(path: Path) {
    path != [] && "v" <= path[|path| - 1] && EndsWith(path[|path| - 1], ".metadata.json")
  }

  lemma EndsWithCut(a: string, b: string, suffix: string)
    ensures EndsWith(a + suffix, b + suffix) <==> EndsWith(a, b)
  {
    var s, t := a + suffix, b + suffix;
    if |a| >= |b| {
      assert s[|s| - |t|..] == a[|a| - |b|..] + suffix;
      CutSuffix(a[|a| - |b|..], b, suffix);
    }
  }

  lemma EndsWithCons(c: char, s: string, suffix: string)
    requires suffix != "" && suffix[0] != c
    ensures EndsWith([c] + s, suffix) <==> EndsWith(s, suffix)
  {
    var t := [c] + s;
    assert |s| >= |suffix| ==> t[|t| - |suffix|..] == s[|s| - |suffix|..];
    assert |t| == |suffix| ==> t[|t| - |suffix|..] == t && t[0] != suffix[0];
  }

  lemma LastComponent(slot: Slot)
    ensures PathOf(slot) != []
    ensures PathOf(slot)[|PathOf(slot)| - 1] == Stem(Parts(slot.name), slot.file) + ".json"
  {
  }

  /** The walks recognise the two kinds of metadata by their file names. */
  lemma WalkRecognises(slot: Slot)
    requires Good(slot)
    ensures NamesMetadata(PathOf(slot)) <==> slot.file.Metadata?
    ensures NamesSnapshotMetadata(PathOf(slot)) <==> slot.file.SnapshotMetadata?
  {
    ValidParts(slot.name);
    LastComponent(slot);
    StemKind(Parts(slot.name), slot.file);
  }

  lemma StemKind(parts: seq<string>, file: File)
    requires GoodParts(parts) && Unreserved(parts) && GoodFile(file)
    ensures Stem(parts, file) + ".json" == "metadata.json" <==> file.Metadata?
    ensures "v" <= Stem(parts, file) + ".json" && EndsWith(Stem(parts, file) + ".json", ".metadata.json")
            <==> file.SnapshotMetadata?
  {
    var stem := Stem(parts, file);
    assert "metadata" + ".json" == "metadata.json" && ".metadata" + ".json" == ".metadata.json";
    CutSuffix(stem, "metadata", ".json");
    EndsWithCut(stem, ".metadata", ".json");
    match file
    case Artifact =>
    case Metadata => assert "metadata"[0] == 'm';
    case Snapshot(version) =>
      VersionedStem(version);
      EndsWithCons('v', version, ".metadata");
      assert "v" + version == ['v'] + version;
    case SnapshotMetadata(version) =>
      VersionedStem(version);
      SuffixEnds("v" + version, ".metadata");
  }

  /** How backfilling finds the artifact of a metadata file from that file's path. */
  function ArtifactBeside(path: Path): Path
    requires |path| >= 2 && (NamesMetadata(path) || NamesSnapshotMetadata(path))
  {
    var dir, last := path[..|path| - 1], path[|path| - 1];
    if NamesMetadata(path) then WithSuffix(dir, ".json")
    else dir + [last[..|last| - |".metadata.json"|] + ".json"]
  }

  function ArtifactFile(file: File): File {
    match file
    case SnapshotMetadata(version) => Snapshot(version)
    case _ => Artifact
  }

  lemma BesideMetadata(base: Path, parts: seq<string>)
    requires base != [] && parts != []
    ensures var path := base + Below(parts, Metadata);
            && |path| >= 2 && NamesMetadata(path)
            && ArtifactBeside(path) == base + Below(parts, Artifact)
  {
    var path := base + Below(parts, Metadata);
    assert "metadata" + ".json" == "metadata.json";
    assert path[..|path| - 1] == base + parts;
    SuffixBelow(base, parts, ".json");
  }

  lemma SuffixBelow(base: Path, parts: seq<string>, suffix: string)
    requires parts != []
    ensures WithSuffix(base + parts, suffix) == base + WithSuffix(parts, suffix)
  {
    assert (base + parts)[..|base + parts| - 1] == base + parts[..|parts| - 1];
  }

  lemma BesideSnapshot(base: Path, parts: seq<string>, version: string)
    requires base != [] && parts != []
    ensures var path := base + Below(parts, SnapshotMetadata(version));
            && |path| >= 2 && NamesSnapshotMetadata(path)
            && ArtifactBeside(path) == base + Below(parts, Snapshot(version))
  {
    var dir, stem := base + (parts + [".versions"]), "v" + version;
    var path := base + Below(parts, SnapshotMetadata(version));
    assert path == dir + [stem + ".metadata" + ".json"];
    BesideLast(dir, stem);
    assert base + Below(parts, Snapshot(version)) == dir + [stem + ".json"];
  }

  lemma BesideLast(dir: Path, stem: string)
    requires dir != [] && stem != "" && stem[0] == 'v'
    ensures var path := dir + [stem + ".metadata" + ".json"];
            NamesSnapshotMetadata(path) && ArtifactBeside(path) == dir + [stem + ".json"]
  {
    var last := stem + ".metadata" + ".json";
    assert ".metadata" + ".json" == ".metadata.json";
    assert last == stem + ".metadata.json";
    SuffixEnds(stem, ".metadata.json");
    assert last[0] == 'v' && "metadata.json"[0] == 'm';
    assert last[..|last| - |".metadata.json"|] == stem;
    assert (dir + [last])[..|dir|] == dir;
  }

  /** It finds the artifact of the same name, or the snapshot of the same version. */
  lemma BesideIsOwn(slot: Slot)
    requires slot.file.Metadata? || slot.file.SnapshotMetadata?
    ensures var path := PathOf(slot);
            && |path| >= 2 && (NamesMetadata(path) || NamesSnapshotMetadata(path))
            && ArtifactBeside(path) == PathOf(slot.(file := ArtifactFile(slot.file)))
  {
    if slot.file.Metadata? {
      BesideMetadata(Base(slot.scope, slot.kind), Parts(slot.name));
    } else {
      BesideSnapshot(Base(slot.scope, slot.kind), Parts(slot.name), slot.file.version);
    }
  }

  // ---- what the reserved forms do ----

  lemma PartsStayGood(name: string, part: string)
    requires (forall p :: p in Parts(name) ==> !BadPart(p)) && !BadPart(part)
    ensures forall p :: p in Parts(name) + [part] ==> !BadPart(p)
  {
  }

  /** Any part that is accepted on its own may be appended to a name. */
  lemma ChildValid(name: string, part: string)
    requires ValidName(name) && !BadPart(part) && '/' !in part && '\\' !in part
    ensures ValidName(Child(name, part)) && Parts(Child(name, part)) == Parts(name) + [part]
  {
    ChildParts(name, part);
    PartsStayGood(name, part);
    ChildText(name, part);
  }

  lemma ChildText(name: string, part: string)
    requires Trim(name) != "" && !("/" <= name) && '\\' !in name && '\\' !in part
    ensures var all := Child(name, part); Trim(all) != "" && !("/" <= all) && '\\' !in all
  {
    var all := Child(name, part);
    assert all == name + (['/'] + part);
    LongerNotBlank(name, ['/'] + part);
    assert name != "" by {
      assert TrimEnd("") == "" && TrimStart("") == "";
    }
    assert all[0] == name[0];
  }

  lemma FixedParts()
    ensures !BadPart("metadata") && '/' !in "metadata" && '\\' !in "metadata"
    ensures !BadPart(".versions") && '/' !in ".versions" && '\\' !in ".versions"
  {
    assert ".versions"[4..] == "sions" && "sions"[0] == 's' && ".json"[0] == '.';
    assert ".versions"[0..] == ".versions" && ".versions"[1] == 'v' && ".metadata"[1] == 'm';
    assert "metadata"[3..] == "adata" && "adata"[0] == 'a';
  }

  /** For every accepted name `m`, `m/metadata` is accepted too, and its artifact overwrites the metadata of `m`. */
  lemma MetadataNameClashes(scope: Scope, kind: Kind, m: string)
    requires PlainScope(scope) && ValidName(m)
    ensures ValidName(Child(m, "metadata"))
    ensures PathOf(Slot(scope, kind, Child(m, "metadata"), Artifact)) == PathOf(Slot(scope, kind, m, Metadata))
  {
    FixedParts();
    ChildValid(m, "metadata");
    CollisionExactly(Slot(scope, kind, Child(m, "metadata"), Artifact), Slot(scope, kind, m, Metadata));
  }

  /** `m/.versions` is accepted, and removing it deletes the snapshots of `m`. */
  lemma VersionsNameOwnsOthers(scope: Scope, kind: Kind, m: string, version: string)
    requires PlainScope(scope) && ValidName(m)
    ensures ValidName(Child(m, ".versions"))
    ensures Inside(PathOf(Slot(scope, kind, m, Snapshot(version))), DirectoryOf(scope, kind, Child(m, ".versions")))
  {
    FixedParts();
    ChildValid(m, ".versions");
    SnapshotInside(scope, kind, m, version, Child(m, ".versions"));
  }

  lemma SnapshotInside(scope: Scope, kind: Kind, m: string, version: string, child: string)
    requires Parts(child) == Parts(m) + [".versions"]
    ensures Inside(PathOf(Slot(scope, kind, m, Snapshot(version))), DirectoryOf(scope, kind, child))
  {
    var parts := Parts(m);
    BelowInside(Base(scope, kind), parts + [".versions"], "v" + version + ".json");
    assert Below(parts, Snapshot(version)) == parts + [".versions"] + ["v" + version + ".json"];
  }

  lemma BelowInside(base: Path, dir: Path, last: string)
    ensures Inside(base + (dir + [last]), base + dir)
  {
    assert (base + (dir + [last]))[..|base + dir|] == base + dir;
  }

  /**
   * `m/.versions/v<version>` is accepted unless it ends in one of the two refused
   * suffixes, and its artifact then overwrites that snapshot of `m`.
   */
  lemma SnapshotNameClashes(scope: Scope, kind: Kind, m: string, version: string)
    requires PlainScope(scope) && ValidName(m) && ValidVersion(version)
    ensures var last := "v" + version;
            var name := Child(Child(m, ".versions"), last);
            && (ValidName(name) <==> !EndsWith(last, ".json") && !EndsWith(last, ".metadata"))
            && (ValidName(name) ==>
                  PathOf(Slot(scope, kind, name, Artifact)) == PathOf(Slot(scope, kind, m, Snapshot(version))))
  {
    FixedParts();
    ChildValid(m, ".versions");
    var last := "v" + version;
    VersionPart(version, last);
    ChildParts(Child(m, ".versions"), last);
    if BadPart(last) {
      assert Parts(Child(Child(m, ".versions"), last))[|Parts(Child(m, ".versions"))|] == last;
    } else {
      ChildValid(Child(m, ".versions"), last);
      SnapshotClash(scope, kind, Child(Child(m, ".versions"), last), m, version);
    }
  }

  lemma SnapshotClash(scope: Scope, kind: Kind, name: string, m: string, version: string)
    requires PlainScope(scope) && ValidName(name) && ValidName(m) && ValidVersion(version)
    requires Parts(name) == Parts(m) + [".versions"] + ["v" + version]
    ensures PathOf(Slot(scope, kind, name, Artifact)) == PathOf(Slot(scope, kind, m, Snapshot(version)))
  {
    assert Parts(m) + [".versions"] + ["v" + version] == Parts(m) + [".versions", "v" + version];
    CollisionExactly(Slot(scope, kind, name, Artifact), Slot(scope, kind, m, Snapshot(version)));
  }

  /** `<version>.metadata` passes the check on versions, and its snapshot overwrites the metadata of `<version>`. */
  lemma VersionClashes(scope: Scope, kind: Kind, m: string, version: string)
    requires PlainScope(scope) && ValidName(m) && ValidVersion(version)
    ensures ValidVersion(version + ".metadata")
    ensures PathOf(Slot(scope, kind, m, Snapshot(version + ".metadata")))
         == PathOf(Slot(scope, kind, m, SnapshotMetadata(version)))
  {
    var longer := version + ".metadata";
    assert longer[|longer| - 1] == 'a';
    NotBlank(longer);
    CollisionExactly(Slot(scope, kind, m, Snapshot(longer)), Slot(scope, kind, m, SnapshotMetadata(version)));
  }
}
