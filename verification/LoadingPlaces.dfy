/**
 * Which lines of an edges directory end up in the index, place by place
 * (src/edge_index.rs): for every file of every lane, whether it is read and which of
 * its lines count. `EdgeLoading` says the same with sets of files.
 */
module LoadingPlaces {
  import opened Wrappers
  import opened Text
  import opened EntityRefs
  import opened Edges
  import opened EdgeLines
  import opened EdgeLoading
  import opened EdgeIndexes
  import opened KeyedMerge
  import opened Seqs

  datatype LaneName = DerivedLane | ExplicitLane | ObservedLane

  /** Where a sidecar file lies; manifest files are numbered as the manifest lists them. */
  datatype Place =
    | RootFile(id: string)
    | LaneFile(lane: LaneName, id: string)
    | NamespaceFile(lane: LaneName, namespace: string, id: string)
    | ManifestFile(index: nat)

  predicate IsTranscriptEdit(e: Edge) {
    e.source.Transcript? && e.kind == "EDITED_FILE"
  }

  /** The session of the transcript edited the target; the metadata comes along. */
  function SessionEdge(e: Edge): Edge
    requires IsTranscriptEdit(e)
  {
    match e.source
    case Transcript(provider, sessionId, _, _) =>
      Edge(e.target, "EDITED_BY_SESSION", Session(provider, sessionId), Derived, Exact, e.metadata)
  }

  /** What decides which files are read. */
  datatype Setup = Setup(
    dir: EdgesDir, loadable: Option<seq<Source>>, registered: Option<set<string>>, includeObserved: bool)
  {
    function Sources(): set<Source> {
      LoadSources(dir, loadable, registered, includeObserved)
    }

    function LaneAt(lane: LaneName): Lane {
      match lane
      case DerivedLane => dir.derived
      case ExplicitLane => dir.explicit
      case ObservedLane => dir.observed
    }

    /** The lines of the file at a place, if there is one. */
    function FileAt(place: Place): Option<seq<Line>> {
      match place
      case RootFile(id) => if id in dir.root then Some(dir.root[id]) else None
      case LaneFile(lane, id) =>
        if id in LaneAt(lane).files then Some(LaneAt(lane).files[id]) else None
      case NamespaceFile(lane, ns, id) =>
        if ns in LaneAt(lane).namespaces && id in LaneAt(lane).namespaces[ns]
        then Some(LaneAt(lane).namespaces[ns][id]) else None
      case ManifestFile(j) =>
        if loadable.Some? && j < |loadable.value| then Some(loadable.value[j].lines) else None
    }

    /** The project of a root file has derived edges of its own in a namespace of the derived lane. */
    ghost predicate Managed(id: string) {
      exists ns :: ns in dir.derived.namespaces && id in dir.derived.namespaces[ns]
    }

    /** The file at a place is read. */
    ghost predicate Reads(place: Place) {
      && FileAt(place).Some?
      && match place
         case RootFile(id) =>
           && (registered.None? || id == "agents" || id in registered.value)
           && (loadable.Some? ==> id !in dir.explicit.files && id !in dir.observed.files)
         case LaneFile(lane, id) =>
           && (lane == ObservedLane ==> includeObserved)
           && (registered.None? || id in registered.value || (loadable.None? && id == "agents"))
           && (loadable.Some? ==> lane != DerivedLane)
         case NamespaceFile(lane, ns, id) =>
           && (lane == ObservedLane ==> includeObserved)
           && (registered.None? || id == "agents" || id in registered.value)
           && loadable.None?
         case ManifestFile(_) => true
    }

    /** A line of the file at a place counts. */
    ghost predicate Counts(place: Place, line: Line) {
      && Trim(line.text) != "" && line.edge.Some?
      && match place
         case RootFile(id) => Managed(id) ==> !LineProvenanceIsDerived(Trim(line.text))
         case ManifestFile(j) =>
           loadable.Some? && j < |loadable.value| &&
           (match loadable.value[j].mode
            case Full => true
            case SkipDerived => !LineProvenanceIsDerived(Trim(line.text))
            case SuppressHashes(hashes) => !FiledAmong(line.edge.value, hashes))
         case _ => true
    }

    /** Line `i` of the file at a place is loaded, and `e` is its edge or the edge it projects to. */
    ghost predicate Gives(place: Place, i: nat, e: Edge) {
      && Reads(place) && i < |FileAt(place).value| && Counts(place, FileAt(place).value[i])
      && var edge := FileAt(place).value[i].edge.value;
         e == edge || (IsTranscriptEdit(edge) && e == SessionEdge(edge))
    }
  }

  // ---- the files read ----

  /** The rule that `EdgeLoading` attaches to the file at a place. */
  ghost function ModeAt(s: Setup, place: Place): LoadMode
    requires s.Reads(place)
  {
    match place
    case RootFile(id) => if s.Managed(id) then SkipDerived else Full
    case ManifestFile(j) => s.loadable.value[j].mode
    case _ => Full
  }

  ghost function SourceAt(s: Setup, place: Place): Source
    requires s.Reads(place)
  {
    Source(s.FileAt(place).value, ModeAt(s, place))
  }

  lemma CountsIsKeeps(s: Setup, place: Place, line: Line)
    requires s.Reads(place)
    ensures s.Counts(place, line) <==> Keeps(ModeAt(s, place), line)
  {
  }

  lemma SessionIsProjection(e: Edge)
    ensures forall x :: x in WithProjection(e) <==> x == e || (IsTranscriptEdit(e) && x == SessionEdge(e))
  {
  }

  lemma RootRead(s: Setup, id: string)
    requires s.Reads(RootFile(id))
    ensures SourceAt(s, RootFile(id)) in s.Sources()
  {
    assert s.Managed(id) <==> id in ManagedIds(s.dir);
    var src := FolderSource(s.dir.root, id, ManagedIds(s.dir));
    assert src == SourceAt(s, RootFile(id));
    if s.loadable.None? {
      assert src in FolderSources(s.dir.root, s.registered, ManagedIds(s.dir));
    } else {
      assert id in s.dir.root.Keys - MigratedIds(s.dir);
      assert src in StemSources(s.dir.root, s.dir.root.Keys - MigratedIds(s.dir), s.registered, ManagedIds(s.dir));
    }
  }

  lemma LaneRead(s: Setup, lane: LaneName, id: string)
    requires s.Reads(LaneFile(lane, id))
    ensures SourceAt(s, LaneFile(lane, id)) in s.Sources()
  {
    var files := s.LaneAt(lane).files;
    if s.loadable.None? {
      assert FolderSource(files, id, {}) in FolderSources(files, s.registered, {});
      assert FolderSource(files, id, {}) in LaneSources(s.LaneAt(lane), s.registered);
    } else {
      assert id in MigratedIds(s.dir);
      assert Source(files[id], Full) in LaneFileSources(files, MigratedIds(s.dir), s.registered);
    }
  }

  lemma NamespaceRead(s: Setup, lane: LaneName, ns: string, id: string)
    requires s.Reads(NamespaceFile(lane, ns, id))
    ensures SourceAt(s, NamespaceFile(lane, ns, id)) in s.Sources()
  {
    var l := s.LaneAt(lane);
    var folder := l.namespaces[ns];
    assert FolderSource(folder, id, {}) in FolderSources(folder, s.registered, {});
    assert FolderSource(folder, id, {}) in NamespaceSources(l, l.namespaces.Keys, s.registered);
    assert FolderSource(folder, id, {}) in LaneSources(l, s.registered);
  }

  lemma PlaceRead(s: Setup, place: Place)
    requires s.Reads(place)
    ensures SourceAt(s, place) in s.Sources()
  {
    match place
    case RootFile(id) => RootRead(s, id);
    case LaneFile(lane, id) => LaneRead(s, lane, id);
    case NamespaceFile(lane, ns, id) => NamespaceRead(s, lane, ns, id);
    case ManifestFile(j) => assert s.loadable.value[j] in PathSources(s.loadable.value);
  }

  lemma RootOf(s: Setup, src: Source, stems: set<string>) returns (place: Place)
    requires src in StemSources(s.dir.root, stems, s.registered, ManagedIds(s.dir))
    requires s.loadable.Some? ==> stems == s.dir.root.Keys - MigratedIds(s.dir)
    ensures s.Reads(place) && SourceAt(s, place) == src
  {
    var id :| id in stems && id in s.dir.root && StemRegistered(id, s.registered)
              && src == FolderSource(s.dir.root, id, ManagedIds(s.dir));
    assert s.Managed(id) <==> id in ManagedIds(s.dir);
    place := RootFile(id);
  }

  lemma InLane(s: Setup, lane: LaneName, src: Source) returns (place: Place)
    requires s.loadable.None? && (lane == ObservedLane ==> s.includeObserved)
    requires src in LaneSources(s.LaneAt(lane), s.registered)
    ensures s.Reads(place) && SourceAt(s, place) == src
  {
    var l := s.LaneAt(lane);
    if src in FolderSources(l.files, s.registered, {}) {
      var id :| id in l.files && StemRegistered(id, s.registered) && src == FolderSource(l.files, id, {});
      place := LaneFile(lane, id);
    } else {
      var ns :| ns in l.namespaces && src in FolderSources(l.namespaces[ns], s.registered, {});
      var id :| id in l.namespaces[ns] && StemRegistered(id, s.registered)
                && src == FolderSource(l.namespaces[ns], id, {});
      place := NamespaceFile(lane, ns, id);
    }
  }

  lemma InMigrated(s: Setup, lane: LaneName, src: Source) returns (place: Place)
    requires s.loadable.Some? && lane != DerivedLane && (lane == ObservedLane ==> s.includeObserved)
    requires src in LaneFileSources(s.LaneAt(lane).files, MigratedIds(s.dir), s.registered)
    ensures s.Reads(place) && SourceAt(s, place) == src
  {
    var files := s.LaneAt(lane).files;
    var id :| id in MigratedIds(s.dir) && id in files && IdRegistered(id, s.registered)
              && src == Source(files[id], Full);
    place := LaneFile(lane, id);
  }

  lemma ReadPlace(s: Setup, src: Source) returns (place: Place)
    requires src in s.Sources()
    ensures s.Reads(place) && SourceAt(s, place) == src
  {
    if s.loadable.None? {
      if src in FolderSources(s.dir.root, s.registered, ManagedIds(s.dir)) {
        place := RootOf(s, src, s.dir.root.Keys);
      } else if src in LaneSources(s.dir.derived, s.registered) {
        place := InLane(s, DerivedLane, src);
      } else if src in LaneSources(s.dir.explicit, s.registered) {
        place := InLane(s, ExplicitLane, src);
      } else {
        place := InLane(s, ObservedLane, src);
      }
    } else if src in PathSources(s.loadable.value) {
      var j :| 0 <= j < |s.loadable.value| && s.loadable.value[j] == src;
      place := ManifestFile(j);
    } else if src in LaneFileSources(s.dir.explicit.files, MigratedIds(s.dir), s.registered) {
      place := InMigrated(s, ExplicitLane, src);
    } else if s.includeObserved && src in LaneFileSources(s.dir.observed.files, MigratedIds(s.dir), s.registered) {
      place := InMigrated(s, ObservedLane, src);
    } else {
      place := RootOf(s, src, s.dir.root.Keys - MigratedIds(s.dir));
    }
  }

  // ---- the edges loaded ----

  /** Whatever order the files are read in, the edges offered are those that some place gives. */
  lemma GivenExactly(s: Setup, order: seq<Source>, e: Edge)
    requires PathSources(order) == s.Sources()
    ensures e in EdgesInOrder(order) <==> exists place, i :: s.Gives(place, i, e)
  {
    if e in EdgesInOrder(order) {
      var src := FlatMapMember(FileEdges, order, e);
      var line := FlatMapMember(EdgesOfLine(src.mode), src.lines, e);
      var i :| 0 <= i < |src.lines| && src.lines[i] == line;
      assert src in PathSources(order);
      var place := ReadPlace(s, src);
      CountsIsKeeps(s, place, line);
      SessionIsProjection(line.edge.value);
      assert s.Gives(place, i, e);
    }
    if exists place, i :: s.Gives(place, i, e) {
      var place, i :| s.Gives(place, i, e);
      GivenInOrder(s, order, place, i, e);
    }
  }

  lemma GivenInOrder(s: Setup, order: seq<Source>, place: Place, i: nat, e: Edge)
    requires PathSources(order) == s.Sources() && s.Gives(place, i, e)
    ensures e in EdgesInOrder(order)
  {
    var src := SourceAt(s, place);
    PlaceRead(s, place);
    assert src in order;
    var line := src.lines[i];
    CountsIsKeeps(s, place, line);
    SessionIsProjection(line.edge.value);
    assert line in src.lines && e in EdgesOfLine(src.mode)(line);
    FlatMapHas(EdgesOfLine(src.mode), src.lines, line, e);
    FlatMapHas(FileEdges, order, src, e);
  }

  /** Every edge that loading adds to an index comes from a place that is read, and from a line there that counts. */
  lemma LoadedWhere(s: Setup, before: seq<Edge>, order: seq<Source>, e: Edge) returns (place: Place, i: nat)
    requires PathSources(order) == s.Sources() && e in InsertAll(before, EdgesInOrder(order)) && e !in before
    ensures s.Gives(place, i, e)
    ensures forall ns :: place.RootFile? && ns in s.dir.derived.namespaces && place.id in s.dir.derived.namespaces[ns]
              ==> !LineProvenanceIsDerived(Trim(s.dir.root[place.id][i].text))
  {
    InsertAllFresh(before, EdgesInOrder(order));
    FreshSubset(EdgeKey, Keys(before), EdgesInOrder(order));
    GivenExactly(s, order, e);
    place, i :| s.Gives(place, i, e);
  }

  /** The keys of the index afterwards are those it had and those that some place gives. */
  lemma KeysLoadedExactly(s: Setup, before: seq<Edge>, order: seq<Source>, key: BareEdge)
    requires PathSources(order) == s.Sources()
    ensures key in Keys(InsertAll(before, EdgesInOrder(order)))
            <==> key in Keys(before) || exists place, i, e :: s.Gives(place, i, e) && e.Key() == key
  {
    InsertAllFresh(before, EdgesInOrder(order));
    if key in Keys(EdgesInOrder(order)) {
      var e :| e in EdgesInOrder(order) && EdgeKey(e) == key;
      GivenExactly(s, order, e);
      var place, i :| s.Gives(place, i, e);
    }
    if exists place, i, e :: s.Gives(place, i, e) && e.Key() == key {
      var place, i, e :| s.Gives(place, i, e) && e.Key() == key;
      GivenExactly(s, order, e);
    }
  }

  /** A root file is read whole, derived lines included, unless some namespace of the derived lane has its project. */
  lemma RootDerivedKept(s: Setup, before: seq<Edge>, order: seq<Source>, id: string, i: nat)
    requires PathSources(order) == s.Sources() && s.loadable.None? && id in s.dir.root && i < |s.dir.root[id]|
    requires s.registered.None? || id == "agents" || id in s.registered.value
    requires forall ns :: ns in s.dir.derived.namespaces ==> id !in s.dir.derived.namespaces[ns]
    requires Trim(s.dir.root[id][i].text) != "" && s.dir.root[id][i].edge.Some?
    ensures s.dir.root[id][i].edge.value.Key() in Keys(InsertAll(before, EdgesInOrder(order)))
  {
    var e := s.dir.root[id][i].edge.value;
    assert s.Gives(RootFile(id), i, e);
    KeysLoadedExactly(s, before, order, e.Key());
  }

  /** The index that `Rebuild` leaves holds projected edges and edges that some place gives, under all their keys. */
  lemma RebuiltWhere(s: Setup, projected: seq<Edge>, order: seq<Source>, e: Edge)
    requires PathSources(order) == s.Sources()
    ensures var edges := FirstOccurrences(projected + EdgesInOrder(order));
            && (e in edges ==> e in projected || exists place, i :: s.Gives(place, i, e))
            && (e.Key() in Keys(edges)
                <==> e.Key() in Keys(projected) || exists place, i, f :: s.Gives(place, i, f) && f.Key() == e.Key())
  {
    var before := FirstOccurrences(projected);
    RebuiltEdges(projected, EdgesInOrder(order));
    InsertRun(projected);
    KeysLoadedExactly(s, before, order, e.Key());
    FreshSubset(EdgeKey, {}, projected + EdgesInOrder(order));
    GivenExactly(s, order, e);
  }
}
