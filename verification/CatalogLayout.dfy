/**
 * The names and paths of the artifact catalog as texts (src/artifacts.rs): which names
 * are accepted, and which path each file of an artifact has.
 */
module CatalogLayout {
  import opened Text
  import opened ArtifactPaths

  // ---- names ----

  /** `part` lies between two slashes of the name, or between a slash and one end, or is all of it. */
  predicate PartBetween(name: string, before: string, part: string, behind: string) {
    && name == before + part + behind && '/' !in part
    && (before == "" || before[|before| - 1] == '/')
    && (behind == "" || behind[0] == '/')
  }

  ghost predicate HasPart(name: string, part: string) {
    exists before, behind :: PartBetween(name, before, part, behind)
  }

  lemma {:induction false} PartFound(name: string, part: string) returns (before: string, behind: string)
    requires part in Parts(name)
    ensures PartBetween(name, before, part, behind)
    decreases |name|
  {
    match SplitOnce(name, '/')
    case None =>
      before, behind := "", "";
    case Some((a, b)) =>
      if part == a {
        before, behind := "", ['/'] + b;
        assert name == a + (['/'] + b);
      } else {
        before, behind := PartFound(b, part);
        PartPrefixed(name, a, b, before, part, behind);
        before := a + ['/'] + before;
      }
  }

  lemma PartPrefixed(name: string, a: string, b: string, before: string, part: string, behind: string)
    requires name == a + ['/'] + b && PartBetween(b, before, part, behind)
    ensures PartBetween(name, a + ['/'] + before, part, behind)
  {
    assert a + ['/'] + (before + part + behind) == a + ['/'] + before + part + behind;
  }

  lemma FrontParts(before: string, rest: string)
    requires before == "" || before[|before| - 1] == '/'
    ensures forall part :: part in Parts(rest) ==> part in Parts(before + rest)
  {
    if before == "" {
      assert before + rest == rest;
    } else {
      var front := before[..|before| - 1];
      assert before + rest == front + ['/'] + rest;
      SplitAllConcat(front, '/', rest);
    }
  }

  lemma FirstPart(part: string, behind: string)
    requires '/' !in part && (behind == "" || behind[0] == '/')
    ensures part in Parts(part + behind)
  {
    if behind == "" {
      assert part + behind == part;
    } else {
      assert part + behind == part + ['/'] + behind[1..];
      SplitAllCons(part, '/', behind[1..]);
    }
  }

  lemma PartThere(name: string, before: string, part: string, behind: string)
    requires PartBetween(name, before, part, behind)
    ensures part in Parts(name)
  {
    FirstPart(part, behind);
    FrontParts(before, part + behind);
    Reassociate(before, part, behind);
  }

  lemma Reassociate(a: string, b: string, c: string)
    ensures a + (b + c) == a + b + c
  {
  }

  lemma PartsExactly(name: string, part: string)
    ensures part in Parts(name) <==> HasPart(name, part)
  {
    if part in Parts(name) {
      var before, behind := PartFound(name, part);
    }
    if before, behind :| PartBetween(name, before, part, behind) {
      PartThere(name, before, part, behind);
    }
  }

  predicate EndsIn(part: string, suffix: string) {
    exists n :: 0 <= n <= |part| && part[n..] == suffix
  }

  lemma EndsInExactly(part: string, suffix: string)
    ensures EndsIn(part, suffix) <==> EndsWith(part, suffix)
  {
  }

  /** No part may be empty, lead to a directory or look like a file of the catalog's own. */
  predicate PlainPart(part: string) {
    part !in {"", ".", ".."} && !EndsIn(part, ".json") && !EndsIn(part, ".metadata")
  }

  /** The names that are accepted. */
  lemma NameAccepted(name: string)
    ensures ValidName(name)
            <==> && !Blank(name) && !("/" <= name) && '\\' !in name
                 && forall part :: HasPart(name, part) ==> PlainPart(part)
  {
    TrimmedBlank(name);
    forall part
      ensures part in Parts(name) <==> HasPart(name, part)
      ensures BadPart(part) <==> !PlainPart(part)
    {
      PartsExactly(name, part);
      EndsInExactly(part, ".json");
      EndsInExactly(part, ".metadata");
    }
  }

  /** A file of an accepted name is one the checks allow, but for snapshots of versions that are not accepted. */
  lemma VersionAccepted(kind: Kind, name: string, version: string)
    requires ValidName(name)
    ensures Plain(Slot(Global, kind, name, Artifact)) && Plain(Slot(Global, kind, name, Metadata))
    ensures Plain(Slot(Global, kind, name, Snapshot(version)))
            <==> !Blank(version) && '/' !in version && '\\' !in version && version !in {".", ".."}
    ensures Plain(Slot(Global, kind, name, SnapshotMetadata(version)))
            <==> Plain(Slot(Global, kind, name, Snapshot(version)))
  {
    TrimmedBlank(version);
  }

  // ---- paths ----

  function Joined(path: Path): string {
    JoinAll(path, '/')
  }

  lemma {:induction false} JoinedConcat(a: Path, b: Path)
    requires a != [] && b != []
    ensures Joined(a + b) == Joined(a) + "/" + Joined(b)
  {
    if |a| == 1 {
      assert a + b == [a[0]] + b;
      JoinCons(a[0], b, '/');
    } else {
      JoinedConcat(a[1..], b);
      assert a + b == [a[0]] + (a[1..] + b);
      JoinCons(a[0], a[1..] + b, '/');
      assert a == [a[0]] + a[1..];
      JoinCons(a[0], a[1..], '/');
    }
  }

  lemma {:induction false} JoinedSuffix(parts: Path, suffix: string)
    requires parts != []
    ensures Joined(WithSuffix(parts, suffix)) == Joined(parts) + suffix
  {
    if |parts| == 1 {
      assert WithSuffix(parts, suffix) == [parts[0] + suffix];
    } else {
      JoinedSuffix(parts[1..], suffix);
      assert WithSuffix(parts, suffix) == [parts[0]] + WithSuffix(parts[1..], suffix);
      JoinCons(parts[0], WithSuffix(parts[1..], suffix), '/');
      assert parts == [parts[0]] + parts[1..];
      JoinCons(parts[0], parts[1..], '/');
    }
  }

  /** The path of a name is the name with the suffix. */
  lemma NamePathText(name: string, suffix: string)
    ensures Joined(WithSuffix(Parts(name), "." + suffix)) == name + "." + suffix
    ensures Joined(Parts(name)) == name
  {
    JoinedSuffix(Parts(name), "." + suffix);
    JoinSplitAll(name, '/');
  }

  lemma KindsSpelled()
    ensures KindDir(Kind.Workflow) == "workflow" && KindDir(Kind.Packet) == "packet"
    ensures KindDir(Kind.Brofile) == "brofile" && KindDir(Kind.Agent) == "agent"
    ensures KindDir(Kind.Atom) == "atom" && KindDir(Kind.Team) == "team" && KindDir(Kind.Cron) == "cron"
  {
  }

  /** The directory of a kind: that of global artifacts lies at the root, those of a project below it. */
  lemma KindDirectory(projectId: string, local: bool, kind: Kind)
    ensures Joined(Base(Global, kind)) == KindDir(kind)
    ensures Joined(Base(Project(projectId, local), kind))
         == "projects" + "/" + projectId + "/" + (if local then "local" else "committed") + "/" + KindDir(kind)
  {
    assert Base(Global, kind) == [KindDir(kind)];
    var lane := if local then "local" else "committed";
    assert Base(Project(projectId, local), kind) == ["projects", projectId, lane, KindDir(kind)];
    JoinedFour("projects", projectId, lane, KindDir(kind));
  }

  lemma JoinedFour(a: string, b: string, c: string, d: string)
    ensures Joined([a, b, c, d]) == a + "/" + b + "/" + c + "/" + d
  {
    JoinedConcat([a, b, c], [d]);
    assert [a, b, c] + [d] == [a, b, c, d];
    JoinedConcat([a, b], [c]);
    assert [a, b] + [c] == [a, b, c];
    JoinedConcat([a], [b]);
    assert [a] + [b] == [a, b];
  }

  /** Below it lie the artifact itself ... */
  lemma ArtifactPath(scope: Scope, kind: Kind, name: string)
    ensures Joined(PathOf(Slot(scope, kind, name, Artifact))) == Joined(Base(scope, kind)) + "/" + (name + ".json")
  {
    JoinSplitAll(name, '/');
    JoinedSuffix(Parts(name), ".json");
    assert Below(Parts(name), Artifact) == WithSuffix(Parts(name), ".json");
    JoinedConcat(Base(scope, kind), WithSuffix(Parts(name), ".json"));
  }

  /** ... its metadata ... */
  lemma MetadataPath(scope: Scope, kind: Kind, name: string)
    ensures Joined(PathOf(Slot(scope, kind, name, Metadata)))
         == Joined(Base(scope, kind)) + "/" + name + "/" + "metadata.json"
  {
    BelowName(Base(scope, kind), name, ["metadata.json"]);
    assert "metadata" + ".json" == "metadata.json";
    assert Below(Parts(name), Metadata) == Parts(name) + ["metadata.json"];
  }

  /** ... and the snapshots of both. */
  lemma SnapshotPath(scope: Scope, kind: Kind, name: string, version: string)
    ensures Joined(PathOf(Slot(scope, kind, name, Snapshot(version))))
         == Joined(Base(scope, kind)) + "/" + name + "/" + (".versions" + "/" + ("v" + version + ".json"))
  {
    var last := "v" + version + ".json";
    BelowName(Base(scope, kind), name, [".versions", last]);
    assert Below(Parts(name), Snapshot(version)) == Parts(name) + [".versions", last];
    PairJoined(".versions", last);
  }

  lemma SnapshotMetadataPath(scope: Scope, kind: Kind, name: string, version: string)
    ensures Joined(PathOf(Slot(scope, kind, name, SnapshotMetadata(version))))
         == Joined(Base(scope, kind)) + "/" + name + "/"
            + (".versions" + "/" + ("v" + version + ".metadata" + ".json"))
  {
    var last := "v" + version + ".metadata" + ".json";
    BelowName(Base(scope, kind), name, [".versions", last]);
    assert Stem(Parts(name), SnapshotMetadata(version)) + ".json" == last;
    assert Directory(Parts(name), SnapshotMetadata(version)) == Parts(name) + [".versions"];
    assert Below(Parts(name), SnapshotMetadata(version)) == Parts(name) + [".versions"] + [last];
    assert Parts(name) + [".versions"] + [last] == Parts(name) + [".versions", last];
    PairJoined(".versions", last);
  }

  lemma PairJoined(a: string, b: string)
    ensures Joined([a, b]) == a + "/" + b
  {
    JoinedConcat([a], [b]);
    assert [a] + [b] == [a, b];
  }

  lemma BelowName(base: Path, name: string, rest: Path)
    requires base != [] && rest != []
    ensures Joined(base + (Parts(name) + rest)) == Joined(base) + "/" + name + "/" + Joined(rest)
  {
    JoinSplitAll(name, '/');
    JoinedConcat(Parts(name), rest);
    JoinedConcat(base, Parts(name) + rest);
    Regroup(Joined(base), name, Joined(rest));
  }

  lemma Regroup(a: string, b: string, c: string)
    ensures a + "/" + (b + "/" + c) == a + "/" + b + "/" + c
  {
  }
}
