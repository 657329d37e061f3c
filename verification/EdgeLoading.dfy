/**
 * What loading edge sidecars contributes, independently of the order in which
 * directories are enumerated: which files are read, in which mode, and which
 * deduplication keys they yield (src/edge_index.rs).
 */
module EdgeLoading {
  import opened Wrappers
  import opened Text
  import opened Edges
  import opened EdgeLines
  import opened Seqs

  datatype LoadMode = Full | SkipDerived | SuppressHashes(hashes: set<string>)

  /** The lines of one sidecar file together with the mode it is loaded in. */
  datatype Source = Source(lines: seq<Line>, mode: LoadMode)

  /** The `*.jsonl` files of one directory by file stem; other files are skipped. */
  type Folder = map<string, seq<Line>>

  datatype Lane = Lane(namespaces: map<string, Folder>, files: Folder)

  datatype EdgesDir = EdgesDir(root: Folder, derived: Lane, explicit: Lane, observed: Lane)

  // ---- one line, one file ----

  predicate Keeps(mode: LoadMode, line: Line) {
    && Trim(line.text) != ""
    && (mode.SkipDerived? ==> !LineProvenanceIsDerived(Trim(line.text)))
    && line.edge.Some?
    && (mode.SuppressHashes? ==> !TouchesAnyPathHash(line.edge.value, mode.hashes))
  }

  /** The keys of an edge and of its projection. */
  function EdgeKeys(e: Edge): set<BareEdge> {
    {e.Key()} +
    match DerivedToolProjection(e)
    case Some(p) => {p.Key()}
    case None => {}
  }

  function LineKeys(mode: LoadMode, line: Line): set<BareEdge> {
    if Keeps(mode, line) then EdgeKeys(line.edge.value) else {}
  }

  function LinesKeys(mode: LoadMode, lines: seq<Line>): set<BareEdge> {
    if lines == [] then {}
    else LinesKeys(mode, lines[..|lines| - 1]) + LineKeys(mode, lines[|lines| - 1])
  }

  function FileKeys(src: Source): set<BareEdge> {
    LinesKeys(src.mode, src.lines)
  }

  function SourcesKeys(srcs: set<Source>): set<BareEdge> {
    set src, k | src in srcs && k in FileKeys(src) :: k
  }

  // ---- the edges a file gives ----

  /** An edge and its projection, in the order they are inserted. */
  function WithProjection(e: Edge): seq<Edge> {
    match DerivedToolProjection(e)
    case Some(p) => [e, p]
    case None => [e]
  }

  function EdgesOfLine(mode: LoadMode): Line -> seq<Edge> {
    line => if Keeps(mode, line) then WithProjection(line.edge.value) else []
  }

  /** The edges of a file's kept lines, each with its projection, metadata included. */
  function FileEdges(src: Source): seq<Edge> {
    FlatMap(EdgesOfLine(src.mode), src.lines)
  }

  /** The edges of files read one after the other. */
  function EdgesInOrder(order: seq<Source>): seq<Edge> {
    FlatMap(FileEdges, order)
  }

  // ---- which files are loaded ----

  predicate StemRegistered(stem: string, registered: Option<set<string>>) {
    registered.Some? ==> stem == "agents" || stem in registered.value
  }

  predicate IdRegistered(id: string, registered: Option<set<string>>) {
    registered.Some? ==> id in registered.value
  }

  function FolderSource(folder: Folder, stem: string, skipDerivedFor: set<string>): Source
    requires stem in folder
  {
    Source(folder[stem], if stem in skipDerivedFor then SkipDerived else Full)
  }

  /** `project_sidecar_edges_in_dir`, for the files whose stem is in `stems`. */
  function StemSources(folder: Folder, stems: set<string>, registered: Option<set<string>>,
                       skipDerivedFor: set<string>): set<Source>
  {
    set s | s in stems && s in folder && StemRegistered(s, registered)
      :: FolderSource(folder, s, skipDerivedFor)
  }

  function FolderSources(folder: Folder, registered: Option<set<string>>,
                         skipDerivedFor: set<string>): set<Source>
  {
    StemSources(folder, folder.Keys, registered, skipDerivedFor)
  }

  function NamespaceSources(lane: Lane, names: set<string>, registered: Option<set<string>>): set<Source> {
    set n, src | n in names && n in lane.namespaces
                 && src in FolderSources(lane.namespaces[n], registered, {}) :: src
  }

  function LaneSources(lane: Lane, registered: Option<set<string>>): set<Source> {
    NamespaceSources(lane, lane.namespaces.Keys, registered) + FolderSources(lane.files, registered, {})
  }

  /** `scan_managed_derived_project_ids` */
  function ManagedIds(dir: EdgesDir): set<string> {
    set n, s | n in dir.derived.namespaces && s in dir.derived.namespaces[n] :: s
  }

  /** `project_sidecar_edges`: everything the fallback loader reads. */
  function FallbackSources(dir: EdgesDir, registered: Option<set<string>>, includeObserved: bool)
    : set<Source>
  {
    FolderSources(dir.root, registered, ManagedIds(dir))
    + LaneSources(dir.derived, registered)
    + LaneSources(dir.explicit, registered)
    + (if includeObserved then LaneSources(dir.observed, registered) else {})
  }

  /** Projects that already have a lane file; their legacy root file is not read. */
  function MigratedIds(dir: EdgesDir): set<string> {
    dir.explicit.files.Keys + dir.observed.files.Keys
  }

  function LaneFileSources(files: Folder, ids: set<string>, registered: Option<set<string>>): set<Source> {
    set id | id in ids && id in files && IdRegistered(id, registered) :: Source(files[id], Full)
  }

  /** `load_legacy_explicit_edges` */
  function LegacySources(dir: EdgesDir, registered: Option<set<string>>, includeObserved: bool)
    : set<Source>
  {
    LaneFileSources(dir.explicit.files, MigratedIds(dir), registered)
    + (if includeObserved then LaneFileSources(dir.observed.files, MigratedIds(dir), registered) else {})
    + StemSources(dir.root, dir.root.Keys - MigratedIds(dir), registered, ManagedIds(dir))
  }

  function PathSources(paths: seq<Source>): set<Source> {
    Members(paths)
  }

  /** `load_sidecar_edges`: with a manifest index, its loadable paths and the legacy files. */
  function LoadSources(dir: EdgesDir, loadable: Option<seq<Source>>, registered: Option<set<string>>,
                       includeObserved: bool): set<Source>
  {
    match loadable
    case None => FallbackSources(dir, registered, includeObserved)
    case Some(paths) =>
      PathSources(paths) + LegacySources(dir, registered, includeObserved)
  }

  // ---- closure under the session projection ----

  ghost predicate Closed(keys: set<BareEdge>) {
    forall k :: k in keys && ProjectionKey(k).Some? ==> ProjectionKey(k).value in keys
  }

  lemma ProjectionHasKey(e: Edge)
    ensures DerivedToolProjection(e).Some? <==> ProjectionKey(e.Key()).Some?
    ensures DerivedToolProjection(e).Some? ==>
              DerivedToolProjection(e).value.Key() == ProjectionKey(e.Key()).value
    ensures DerivedToolProjection(e).Some? ==>
              ProjectionKey(DerivedToolProjection(e).value.Key()).None?
  {
    assert |EDITED_BY_SESSION| != |EDITED_FILE|;
  }

  lemma {:induction false} LinesKeysClosed(mode: LoadMode, lines: seq<Line>)
    ensures Closed(LinesKeys(mode, lines))
  {
    if lines != [] {
      LinesKeysClosed(mode, lines[..|lines| - 1]);
      if Keeps(mode, lines[|lines| - 1]) {
        ProjectionHasKey(lines[|lines| - 1].edge.value);
      }
    }
  }

  /** Whatever is loaded, every transcript edit comes with its session edge. */
  lemma SourcesKeysClosed(srcs: set<Source>)
    ensures Closed(SourcesKeys(srcs))
  {
    forall k | k in SourcesKeys(srcs) && ProjectionKey(k).Some?
      ensures ProjectionKey(k).value in SourcesKeys(srcs)
    {
      var src :| src in srcs && k in FileKeys(src);
      LinesKeysClosed(src.mode, src.lines);
      assert ProjectionKey(k).value in FileKeys(src);
    }
  }

  // ---- the observed lanes ----

  /** The files read only when observed history is included. */
  function ObservedSources(dir: EdgesDir, loadable: Option<seq<Source>>,
                           registered: Option<set<string>>): set<Source>
  {
    match loadable
    case None => LaneSources(dir.observed, registered)
    case Some(_) => LaneFileSources(dir.observed.files, MigratedIds(dir), registered)
  }

  lemma SourcesKeysUnion(a: set<Source>, b: set<Source>)
    ensures SourcesKeys(a + b) == SourcesKeys(a) + SourcesKeys(b)
  {
    forall k | k in SourcesKeys(a)
      ensures k in SourcesKeys(a + b)
    {
      var src :| src in a && k in FileKeys(src);
      assert src in a + b;
    }
    forall k | k in SourcesKeys(b)
      ensures k in SourcesKeys(a + b)
    {
      var src :| src in b && k in FileKeys(src);
      assert src in a + b;
    }
  }

  /**
   * Including observed history adds exactly the keys of the observed files, so
   * leaving it out gives a subset and the difference comes from those files alone.
   */
  lemma ObservedAddsExactly(dir: EdgesDir, loadable: Option<seq<Source>>, registered: Option<set<string>>)
    ensures SourcesKeys(LoadSources(dir, loadable, registered, true))
         == SourcesKeys(LoadSources(dir, loadable, registered, false))
          + SourcesKeys(ObservedSources(dir, loadable, registered))
  {
    var without := LoadSources(dir, loadable, registered, false);
    var observed := ObservedSources(dir, loadable, registered);
    assert LoadSources(dir, loadable, registered, true) == without + observed;
    SourcesKeysUnion(without, observed);
  }

  /** A key that only observed history supplies: some observed file keeps a line that yields it. */
  lemma ObservedDifference(dir: EdgesDir, loadable: Option<seq<Source>>, registered: Option<set<string>>,
                           k: BareEdge) returns (src: Source, i: nat)
    requires k in SourcesKeys(LoadSources(dir, loadable, registered, true))
    requires k !in SourcesKeys(LoadSources(dir, loadable, registered, false))
    ensures src in ObservedSources(dir, loadable, registered)
    ensures i < |src.lines| && Keeps(src.mode, src.lines[i])
    ensures k in EdgeKeys(src.lines[i].edge.value)
  {
    ObservedAddsExactly(dir, loadable, registered);
    src :| src in ObservedSources(dir, loadable, registered) && k in FileKeys(src);
    i := KeyFromLine(src.mode, src.lines, k);
  }

  lemma {:induction false} KeyFromLine(mode: LoadMode, lines: seq<Line>, k: BareEdge) returns (i: nat)
    requires k in LinesKeys(mode, lines)
    ensures i < |lines| && Keeps(mode, lines[i]) && k in EdgeKeys(lines[i].edge.value)
  {
    if k in LineKeys(mode, lines[|lines| - 1]) {
      i := |lines| - 1;
    } else {
      i := KeyFromLine(mode, lines[..|lines| - 1], k);
    }
  }
}
