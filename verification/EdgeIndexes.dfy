/**
 * The in-memory edge index (src/edge_index.rs): an append-only edge vector with
 * four secondary indexes and a set of deduplication keys.
 */
module EdgeIndexes {
  import opened Wrappers
  import opened Text
  import opened EntityRefs
  import opened Edges
  import opened EdgeLines
  import opened EdgeLoading
  import opened KeyedMerge
  import opened Seqs

  // ---- the plain scan the indexes must agree with ----

  datatype Query =
    | BySource(source: EntityRef)
    | ByTarget(target: EntityRef)
    | ByAnchor(sha: string)
    | BySession(provider: string, sessionId: string)

  predicate Matches(e: Edge, q: Query) {
    match q
    case BySource(r) => e.source == r
    case ByTarget(r) => e.target == r
    case ByAnchor(sha) => e.kind == EDITED_FILE && e.Anchor() == Some(sha)
    case BySession(p, s) =>
      && e.kind in {EDITED_FILE, READ_FILE, RAN_BASH}
      && e.source.Transcript? && e.source.provider == p && e.source.sessionId == s
  }

  /** The edges a query selects, in insertion order. */
  function Scan(edges: seq<Edge>, q: Query): seq<Edge> {
    if edges == [] then []
    else
      Scan(edges[..|edges| - 1], q)
      + (if Matches(edges[|edges| - 1], q) then [edges[|edges| - 1]] else [])
  }

  function Ids(edges: seq<Edge>, q: Query): (ids: seq<nat>)
    ensures forall i :: 0 <= i < |ids| ==> ids[i] < |edges|
  {
    if edges == [] then []
    else
      Ids(edges[..|edges| - 1], q)
      + (if Matches(edges[|edges| - 1], q) then [|edges| - 1] else [])
  }

  function Select(edges: seq<Edge>, ids: seq<nat>): seq<Edge>
    requires forall i :: 0 <= i < |ids| ==> ids[i] < |edges|
  {
    seq(|ids|, i requires 0 <= i < |ids| => edges[ids[i]])
  }

  lemma {:induction false} SelectIds(edges: seq<Edge>, q: Query)
    ensures Select(edges, Ids(edges, q)) == Scan(edges, q)
  {
    if edges != [] {
      var n := |edges| - 1;
      SelectIds(edges[..n], q);
      assert Select(edges[..n], Ids(edges[..n], q)) == Select(edges, Ids(edges[..n], q));
    }
  }

  function EdgeKey(e: Edge): BareEdge {
    e.Key()
  }

  function Keys(edges: seq<Edge>): set<BareEdge> {
    KeysOf(EdgeKey, edges)
  }

  // ---- runs of inserts ----

  function Inserted(edges: seq<Edge>, e: Edge): seq<Edge> {
    if e.Key() in Keys(edges) then edges else edges + [e]
  }

  function InsertAll(edges: seq<Edge>, batch: seq<Edge>): seq<Edge> {
    if batch == [] then edges
    else Inserted(InsertAll(edges, batch[..|batch| - 1]), batch[|batch| - 1])
  }

  /** `batch` without every edge whose key occurred before it. */
  function FirstOccurrences(batch: seq<Edge>): seq<Edge> {
    Fresh(EdgeKey, {}, batch)
  }

  lemma KeysPush(edges: seq<Edge>, e: Edge)
    ensures Keys(edges + [e]) == Keys(edges) + {e.Key()}
  {
    KeysConcat(EdgeKey, edges, [e]);
    KeysOne(EdgeKey, e);
  }

  lemma KeysInserted(edges: seq<Edge>, e: Edge)
    ensures Keys(Inserted(edges, e)) == Keys(edges) + {e.Key()}
    ensures DistinctKeys(EdgeKey, edges) ==> DistinctKeys(EdgeKey, Inserted(edges, e))
  {
    KeysPush(edges, e);
    if e.Key() !in Keys(edges) && DistinctKeys(EdgeKey, edges) {
      DistinctPush(EdgeKey, edges, e);
    }
  }

  /** A run of inserts appends the edges of the batch whose key is new, in order. */
  lemma {:induction false} InsertAllFresh(edges: seq<Edge>, batch: seq<Edge>)
    ensures InsertAll(edges, batch) == edges + Fresh(EdgeKey, Keys(edges), batch)
    ensures Keys(InsertAll(edges, batch)) == Keys(edges) + Keys(batch)
  {
    FreshKeys(EdgeKey, Keys(edges), batch);
    KeysConcat(EdgeKey, edges, Fresh(EdgeKey, Keys(edges), batch));
    if batch != [] {
      var before, e := batch[..|batch| - 1], batch[|batch| - 1];
      InsertAllFresh(edges, before);
      Associate(edges, Fresh(EdgeKey, Keys(edges), before), [e]);
    }
  }

  /** Inserting a batch into an empty index keeps the first edge of each key, in order. */
  lemma InsertRun(batch: seq<Edge>)
    ensures InsertAll([], batch) == FirstOccurrences(batch)
    ensures Keys(InsertAll([], batch)) == Keys(batch)
    ensures DistinctKeys(EdgeKey, InsertAll([], batch))
  {
    InsertAllFresh([], batch);
    assert Keys([]) == {} && [] + FirstOccurrences(batch) == FirstOccurrences(batch);
    FreshDistinct(EdgeKey, {}, batch);
  }

  /** Inserting one batch after another is inserting them as one. */
  lemma InsertAllConcat(edges: seq<Edge>, a: seq<Edge>, b: seq<Edge>)
    ensures InsertAll(InsertAll(edges, a), b) == InsertAll(edges, a + b)
  {
    InsertAllFresh(edges, a);
    InsertAllFresh(InsertAll(edges, a), b);
    InsertAllFresh(edges, a + b);
    FreshConcat(EdgeKey, Keys(edges), a, b);
    Associate(edges, Fresh(EdgeKey, Keys(edges), a), Fresh(EdgeKey, Keys(edges) + Keys(a), b));
  }

  /** The edge kept for a key carries the metadata that was inserted first. */
  lemma {:induction false} FirstMetadataWins(batch: seq<Edge>, i: nat)
    requires i < |batch| && forall j :: 0 <= j < i ==> batch[j].Key() != batch[i].Key()
    ensures batch[i] in FirstOccurrences(batch)
  {
    var before, e := batch[..|batch| - 1], batch[|batch| - 1];
    if i < |before| {
      FirstMetadataWins(before, i);
    } else {
      assert e.Key() !in Keys(before);
    }
  }

  /** The edges kept are the same in every order exactly when equal keys mean equal edges. */
  lemma MetadataDependsOnOrder(batch: seq<Edge>)
    ensures (forall other :: multiset(other) == multiset(batch) ==>
               SameMembers(FirstOccurrences(other), FirstOccurrences(batch)))
            <==> forall e, f :: e in batch && f in batch && EdgeKey(e) == EdgeKey(f) ==> e == f
  {
    OrderIrrelevant(EdgeKey, batch);
    OrderFreeEdges(batch);
    assert KeyDetermines(EdgeKey, batch)
           <==> forall e, f :: e in batch && f in batch && EdgeKey(e) == EdgeKey(f) ==> e == f;
  }

  lemma OrderFreeEdges(batch: seq<Edge>)
    ensures OrderFree(EdgeKey, batch)
            <==> forall other :: multiset(other) == multiset(batch) ==>
                   SameMembers(FirstOccurrences(other), FirstOccurrences(batch))
  {
    assert forall other :: FirstOccurrences(other) == Fresh(EdgeKey, {}, other);
  }

  // ---- the index ----

  function Lookup<K>(m: map<K, seq<nat>>, k: K): seq<nat> {
    if k in m then m[k] else []
  }

  function Push<K>(m: map<K, seq<nat>>, k: K, id: nat): map<K, seq<nat>> {
    m[k := Lookup(m, k) + [id]]
  }

  /** Only an edit that records a commit is anchored. */
  function PushAnchor(m: map<string, seq<nat>>, e: Edge, id: nat): map<string, seq<nat>> {
    if e.kind == EDITED_FILE && e.Anchor().Some? then Push(m, e.Anchor().value, id) else m
  }

  /** Only a tool call made by a transcript belongs to a session. */
  function PushSession(m: map<(string, string), seq<nat>>, e: Edge, id: nat)
    : map<(string, string), seq<nat>>
  {
    if e.kind in {EDITED_FILE, READ_FILE, RAN_BASH} && e.source.Transcript?
    then Push(m, (e.source.provider, e.source.sessionId), id)
    else m
  }

  /** The four indexes that inserting the edges one by one builds. */
  function SourceIndex(edges: seq<Edge>): map<EntityRef, seq<nat>> {
    if edges == [] then map[]
    else Push(SourceIndex(edges[..|edges| - 1]), edges[|edges| - 1].source, |edges| - 1)
  }

  function TargetIndex(edges: seq<Edge>): map<EntityRef, seq<nat>> {
    if edges == [] then map[]
    else Push(TargetIndex(edges[..|edges| - 1]), edges[|edges| - 1].target, |edges| - 1)
  }

  function AnchorIndex(edges: seq<Edge>): map<string, seq<nat>> {
    if edges == [] then map[]
    else PushAnchor(AnchorIndex(edges[..|edges| - 1]), edges[|edges| - 1], |edges| - 1)
  }

  function SessionIndex(edges: seq<Edge>): map<(string, string), seq<nat>> {
    if edges == [] then map[]
    else PushSession(SessionIndex(edges[..|edges| - 1]), edges[|edges| - 1], |edges| - 1)
  }

  lemma IndexesPush(edges: seq<Edge>, e: Edge)
    ensures SourceIndex(edges + [e]) == Push(SourceIndex(edges), e.source, |edges|)
    ensures TargetIndex(edges + [e]) == Push(TargetIndex(edges), e.target, |edges|)
    ensures AnchorIndex(edges + [e]) == PushAnchor(AnchorIndex(edges), e, |edges|)
    ensures SessionIndex(edges + [e]) == PushSession(SessionIndex(edges), e, |edges|)
  {
    assert (edges + [e])[..|edges|] == edges;
  }

  /** What an index holds for a key are the ids of the edges that its query selects. */
  lemma {:induction false} SourceIndexed(edges: seq<Edge>, r: EntityRef)
    ensures Lookup(SourceIndex(edges), r) == Ids(edges, BySource(r))
    ensures r in SourceIndex(edges) <==> Ids(edges, BySource(r)) != []
  {
    if edges != [] {
      SourceIndexed(edges[..|edges| - 1], r);
    }
  }

  lemma {:induction false} TargetIndexed(edges: seq<Edge>, r: EntityRef)
    ensures Lookup(TargetIndex(edges), r) == Ids(edges, ByTarget(r))
    ensures r in TargetIndex(edges) <==> Ids(edges, ByTarget(r)) != []
  {
    if edges != [] {
      TargetIndexed(edges[..|edges| - 1], r);
    }
  }

  lemma {:induction false} AnchorIndexed(edges: seq<Edge>, sha: string)
    ensures Lookup(AnchorIndex(edges), sha) == Ids(edges, ByAnchor(sha))
  {
    if edges != [] {
      AnchorIndexed(edges[..|edges| - 1], sha);
    }
  }

  lemma {:induction false} SessionIndexed(edges: seq<Edge>, p: string, s: string)
    ensures Lookup(SessionIndex(edges), (p, s)) == Ids(edges, BySession(p, s))
  {
    if edges != [] {
      SessionIndexed(edges[..|edges| - 1], p, s);
    }
  }

  class EdgeIndex {
    var edges: seq<Edge>
    var forward: map<EntityRef, seq<nat>>
    var reverse: map<EntityRef, seq<nat>>
    var commitAnchors: map<string, seq<nat>>
    var sessionToolCalls: map<(string, string), seq<nat>>

    /** Every index is the one built from the edge vector. */
    ghost predicate Indexed()
      reads this
    {
      && forward == SourceIndex(edges)
      && reverse == TargetIndex(edges)
      && commitAnchors == AnchorIndex(edges)
      && sessionToolCalls == SessionIndex(edges)
    }

    /** The invariant of an index and the key set handed along with it. */
    ghost predicate Valid(seen: set<BareEdge>)
      reads this
    {
      Indexed() && seen == Keys(edges) && DistinctKeys(EdgeKey, edges)
    }

    constructor ()
      ensures Valid({}) && edges == []
    {
      edges := [];
      forward, reverse, commitAnchors, sessionToolCalls := map[], map[], map[], map[];
    }

    method Insert(edge: Edge, seen: set<BareEdge>) returns (seen': set<BareEdge>)
      requires Valid(seen)
      modifies this
      ensures Valid(seen')
      ensures edges == Inserted(old(edges), edge)
      ensures seen' == seen + {edge.Key()}
    {
      KeysInserted(edges, edge);
      if edge.Key() in seen {
        return seen;
      }
      seen' := seen + {edge.Key()};
      Append(edge);
    }

    method Append(edge: Edge)
      requires Indexed()
      modifies this
      ensures Indexed() && edges == old(edges) + [edge]
    {
      var id := |edges|;
      IndexesPush(edges, edge);
      edges := edges + [edge];
      commitAnchors := PushAnchor(commitAnchors, edge, id);
      sessionToolCalls := PushSession(sessionToolCalls, edge, id);
      reverse := Push(reverse, edge.target, id);
      forward := Push(forward, edge.source, id);
    }

    /** Reading a list of ids off the edge vector. */
    method Collect(ids: seq<nat>) returns (found: seq<Edge>)
      requires forall i :: 0 <= i < |ids| ==> ids[i] < |edges|
      ensures found == Select(edges, ids)
    {
      found := [];
      for i := 0 to |ids|
        invariant found == Select(edges, ids[..i])
      {
        found := found + [edges[ids[i]]];
      }
      assert ids[..|ids|] == ids;
    }

    method ForwardEdges(source: EntityRef) returns (found: seq<Edge>)
      requires Indexed()
      ensures found == Scan(edges, BySource(source))
    {
      SelectIds(edges, BySource(source));
      SourceIndexed(edges, source);
      if source !in forward {
        return [];
      }
      found := Collect(forward[source]);
    }

    method ReverseEdges(target: EntityRef) returns (found: seq<Edge>)
      requires Indexed()
      ensures found == Scan(edges, ByTarget(target))
    {
      SelectIds(edges, ByTarget(target));
      TargetIndexed(edges, target);
      if target !in reverse {
        return [];
      }
      found := Collect(reverse[target]);
    }

    method EdgesWithAnchorCommit(sha: string) returns (found: seq<Edge>)
      requires Indexed()
      ensures found == Scan(edges, ByAnchor(sha))
    {
      SelectIds(edges, ByAnchor(sha));
      AnchorIndexed(edges, sha);
      found := Collect(Lookup(commitAnchors, sha));
    }

    method SessionToolCallEdges(provider: string, sessionId: string) returns (found: seq<Edge>)
      requires Indexed()
      ensures found == Scan(edges, BySession(provider, sessionId))
    {
      SelectIds(edges, BySession(provider, sessionId));
      SessionIndexed(edges, provider, sessionId);
      found := Collect(Lookup(sessionToolCalls, (provider, sessionId)));
    }

    /** The references some edge starts from or points to. */
    method KnownRefs() returns (refs: set<EntityRef>)
      requires Indexed()
      ensures forall r :: r in refs <==>
                exists i :: 0 <= i < |edges| && (edges[i].source == r || edges[i].target == r)
    {
      refs := forward.Keys + reverse.Keys;
      forall r
        ensures r in refs <==>
                exists i :: 0 <= i < |edges| && (edges[i].source == r || edges[i].target == r)
      {
        IdsNonEmpty(edges, BySource(r));
        IdsNonEmpty(edges, ByTarget(r));
        SourceIndexed(edges, r);
        TargetIndexed(edges, r);
      }
    }

    /** `from_edges_for_tests`: a run of inserts from the empty index. */
    static method FromEdges(batch: seq<Edge>) returns (index: EdgeIndex, seen: set<BareEdge>)
      ensures fresh(index) && index.Valid(seen)
      ensures index.edges == FirstOccurrences(batch) && seen == Keys(batch)
    {
      index := new EdgeIndex();
      seen := {};
      for i := 0 to |batch|
        invariant fresh(index) && index.Valid(seen)
        invariant index.edges == InsertAll([], batch[..i])
      {
        seen := index.Insert(batch[i], seen);
        assert batch[..i + 1][..i] == batch[..i];
      }
      assert batch[..|batch|] == batch;
      InsertRun(batch);
    }

    // ---- loading sidecars ----

    method InsertSidecarEdge(edge: Edge, seen: set<BareEdge>) returns (seen': set<BareEdge>)
      requires Valid(seen)
      modifies this
      ensures Valid(seen') && edges == InsertAll(old(edges), WithProjection(edge))
      ensures seen' == seen + EdgeKeys(edge)
    {
      var derived := DerivedToolProjection(edge);
      InsertOneOrTwo(edges, edge);
      AddEdgeKeys(seen, edge);
      seen' := Insert(edge, seen);
      if derived.Some? {
        seen' := Insert(derived.value, seen');
      }
    }

    /** One line of a sidecar: skipped, filtered out, unparsable, or inserted. */
    method LoadLine(mode: LoadMode, line: Line, seen: set<BareEdge>) returns (seen': set<BareEdge>)
      requires Valid(seen)
      modifies this
      ensures Valid(seen') && edges == InsertAll(old(edges), EdgesOfLine(mode)(line))
      ensures seen' == seen + LineKeys(mode, line)
    {
      var trimmed := Trim(line.text);
      if trimmed == "" {
        return seen;
      }
      if mode.SkipDerived? && LineProvenanceIsDerived(trimmed) {
        return seen;
      }
      match line.edge {
        case Some(edge) =>
          if mode.SuppressHashes? && TouchesAnyPathHash(edge, mode.hashes) {
            return seen;
          }
          seen' := InsertSidecarEdge(edge, seen);
        case None =>
          seen' := seen;
      }
    }

    /** `project_sidecar_edges_file` and its hash-filtering variant. */
    method LoadFile(src: Source, seen: set<BareEdge>) returns (seen': set<BareEdge>)
      requires Valid(seen)
      modifies this
      ensures Valid(seen') && edges == InsertAll(old(edges), FileEdges(src))
      ensures seen' == seen + FileKeys(src)
    {
      ghost var before, load := edges, EdgesOfLine(src.mode);
      seen' := seen;
      for i := 0 to |src.lines|
        invariant Valid(seen') && edges == InsertAll(before, FlatMap(load, src.lines[..i]))
      {
        LinesStep(before, src, i);
        seen' := LoadLine(src.mode, src.lines[i], seen');
      }
      assert src.lines[..|src.lines|] == src.lines;
      FileLoaded(before, src);
    }

    /**
     * Loading the files of a folder in whatever order the directory lists them, which
     * `order` records: the choice of the next stem is arbitrary, the files read are not.
     */
    method LoadFolder(folder: Folder, stems: set<string>, registered: Option<set<string>>,
                      skipDerivedFor: set<string>, seen: set<BareEdge>)
      returns (seen': set<BareEdge>, ghost order: seq<Source>)
      requires Valid(seen) && stems <= folder.Keys
      modifies this
      ensures Valid(seen') && edges == InsertAll(old(edges), EdgesInOrder(order))
      ensures PathSources(order) == StemSources(folder, stems, registered, skipDerivedFor)
      ensures seen' == seen + SourcesKeys(StemSources(folder, stems, registered, skipDerivedFor))
    {
      ghost var before := edges;
      seen', order := seen, [];
      var todo := stems;
      ghost var done: set<string> := {};
      while todo != {}
        invariant Valid(seen') && edges == InsertAll(before, EdgesInOrder(order))
        invariant todo + done == stems
        invariant PathSources(order) == StemSources(folder, done, registered, skipDerivedFor)
        decreases todo
      {
        var stem :| stem in todo;
        todo := todo - {stem};
        StemSourcesStep(folder, done, stem, registered, skipDerivedFor);
        done := done + {stem};
        if StemRegistered(stem, registered) {
          var src := FolderSource(folder, stem, skipDerivedFor);
          seen' := LoadFile(src, seen');
          OneMore(before, order, src);
          order := order + [src];
        }
      }
      assert done == stems;
      OrderLoaded(before, order);
    }

    /** One lane directory: each of its subdirectories, then its own files. */
    method LoadLane(lane: Lane, registered: Option<set<string>>, seen: set<BareEdge>)
      returns (seen': set<BareEdge>, ghost order: seq<Source>)
      requires Valid(seen)
      modifies this
      ensures Valid(seen') && edges == InsertAll(old(edges), EdgesInOrder(order))
      ensures PathSources(order) == LaneSources(lane, registered)
      ensures seen' == seen + SourcesKeys(LaneSources(lane, registered))
    {
      ghost var before := edges;
      ghost var more;
      seen', order := seen, [];
      var todo := lane.namespaces.Keys;
      ghost var done: set<string> := {};
      while todo != {}
        invariant Valid(seen') && edges == InsertAll(before, EdgesInOrder(order))
        invariant todo + done == lane.namespaces.Keys
        invariant PathSources(order) == NamespaceSources(lane, done, registered)
        decreases todo
      {
        var name :| name in todo;
        todo := todo - {name};
        NamespaceSourcesStep(lane, done, name, registered);
        done := done + {name};
        var folder := lane.namespaces[name];
        seen', more := LoadFolder(folder, folder.Keys, registered, {}, seen');
        More(before, order, more);
        order := order + more;
      }
      assert done == lane.namespaces.Keys;
      seen', more := LoadFolder(lane.files, lane.files.Keys, registered, {}, seen');
      More(before, order, more);
      order := order + more;
      OrderLoaded(before, order);
    }

    /** `project_sidecar_edges`: the fallback without a manifest index. */
    method LoadFallback(dir: EdgesDir, registered: Option<set<string>>, includeObserved: bool,
                        seen: set<BareEdge>)
      returns (seen': set<BareEdge>, ghost order: seq<Source>)
      requires Valid(seen)
      modifies this
      ensures Valid(seen') && edges == InsertAll(old(edges), EdgesInOrder(order))
      ensures PathSources(order) == FallbackSources(dir, registered, includeObserved)
      ensures seen' == seen + SourcesKeys(FallbackSources(dir, registered, includeObserved))
    {
      ghost var before := edges;
      ghost var more;
      seen', order := LoadFolder(dir.root, dir.root.Keys, registered, ManagedIds(dir), seen);
      seen', more := LoadLane(dir.derived, registered, seen');
      More(before, order, more);
      order := order + more;
      seen', more := LoadLane(dir.explicit, registered, seen');
      More(before, order, more);
      order := order + more;
      if includeObserved {
        seen', more := LoadLane(dir.observed, registered, seen');
        More(before, order, more);
        order := order + more;
      }
      OrderLoaded(before, order);
    }

    /** One project's file in one lane, if there is one. */
    method LoadOneLane(files: Folder, id: string, seen: set<BareEdge>)
      returns (seen': set<BareEdge>, ghost order: seq<Source>)
      requires Valid(seen)
      modifies this
      ensures Valid(seen') && edges == InsertAll(old(edges), EdgesInOrder(order))
      ensures PathSources(order) == OneLaneSource(files, id)
    {
      if id !in files {
        return seen, [];
      }
      var src := Source(files[id], Full);
      OneMore(edges, [], src);
      assert [] + [src] == [src];
      seen' := LoadFile(src, seen);
      return seen', [src];
    }

    /** The explicit and the observed lane file of one project. */
    method LoadProjectLanes(dir: EdgesDir, id: string, includeObserved: bool, seen: set<BareEdge>)
      returns (seen': set<BareEdge>, ghost order: seq<Source>)
      requires Valid(seen)
      modifies this
      ensures Valid(seen') && edges == InsertAll(old(edges), EdgesInOrder(order))
      ensures PathSources(order) == ProjectLaneSources(dir, id, includeObserved)
      ensures seen' == seen + SourcesKeys(ProjectLaneSources(dir, id, includeObserved))
    {
      ghost var before := edges;
      seen', order := LoadOneLane(dir.explicit.files, id, seen);
      if includeObserved {
        ghost var more;
        seen', more := LoadOneLane(dir.observed.files, id, seen');
        More(before, order, more);
        order := order + more;
      }
      OrderLoaded(before, order);
    }

    /** The lane files of the migrated projects, in any order. */
    method LoadMigrated(dir: EdgesDir, registered: Option<set<string>>, includeObserved: bool,
                        seen: set<BareEdge>)
      returns (seen': set<BareEdge>, ghost order: seq<Source>)
      requires Valid(seen)
      modifies this
      ensures Valid(seen') && edges == InsertAll(old(edges), EdgesInOrder(order))
      ensures PathSources(order) == MigratedSources(dir, MigratedIds(dir), registered, includeObserved)
      ensures seen' == seen + SourcesKeys(MigratedSources(dir, MigratedIds(dir), registered, includeObserved))
    {
      ghost var before := edges;
      ghost var more;
      seen', order := seen, [];
      var todo := MigratedIds(dir);
      ghost var done: set<string> := {};
      while todo != {}
        invariant Valid(seen') && edges == InsertAll(before, EdgesInOrder(order))
        invariant todo + done == MigratedIds(dir)
        invariant PathSources(order) == MigratedSources(dir, done, registered, includeObserved)
        decreases todo
      {
        var id :| id in todo;
        todo := todo - {id};
        MigratedStep(dir, done, id, registered, includeObserved);
        done := done + {id};
        if IdRegistered(id, registered) {
          seen', more := LoadProjectLanes(dir, id, includeObserved, seen');
          More(before, order, more);
          order := order + more;
        }
      }
      assert done == MigratedIds(dir);
      OrderLoaded(before, order);
    }

    /** `load_legacy_explicit_edges` */
    method LoadLegacyExplicit(dir: EdgesDir, registered: Option<set<string>>, includeObserved: bool,
                              seen: set<BareEdge>)
      returns (seen': set<BareEdge>, ghost order: seq<Source>)
      requires Valid(seen)
      modifies this
      ensures Valid(seen') && edges == InsertAll(old(edges), EdgesInOrder(order))
      ensures PathSources(order) == LegacySources(dir, registered, includeObserved)
      ensures seen' == seen + SourcesKeys(LegacySources(dir, registered, includeObserved))
    {
      ghost var before := edges;
      ghost var more;
      seen', order := LoadMigrated(dir, registered, includeObserved, seen);
      seen', more := LoadFolder(dir.root, dir.root.Keys - MigratedIds(dir), registered, ManagedIds(dir), seen');
      More(before, order, more);
      order := order + more;
      OrderLoaded(before, order);
    }

    /** `load_manifest_active_paths` */
    method LoadManifestActivePaths(paths: seq<Source>, seen: set<BareEdge>) returns (seen': set<BareEdge>)
      requires Valid(seen)
      modifies this
      ensures Valid(seen') && edges == InsertAll(old(edges), EdgesInOrder(paths))
      ensures seen' == seen + SourcesKeys(PathSources(paths))
    {
      ghost var before := edges;
      seen' := seen;
      for i := 0 to |paths|
        invariant Valid(seen') && edges == InsertAll(before, EdgesInOrder(paths[..i]))
      {
        OneMore(before, paths[..i], paths[i]);
        assert paths[..i + 1] == paths[..i] + [paths[i]];
        seen' := LoadFile(paths[i], seen');
      }
      assert paths[..|paths|] == paths;
      OrderLoaded(before, paths);
    }

    /** `load_sidecar_edges`; `loadable` is what the manifest index offers, if there is one. */
    method LoadSidecarEdges(dir: EdgesDir, loadable: Option<seq<Source>>, registered: Option<set<string>>,
                            includeObserved: bool, seen: set<BareEdge>)
      returns (seen': set<BareEdge>, ghost order: seq<Source>)
      requires Valid(seen)
      modifies this
      ensures Valid(seen') && edges == InsertAll(old(edges), EdgesInOrder(order))
      ensures PathSources(order) == LoadSources(dir, loadable, registered, includeObserved)
      ensures seen' == seen + SourcesKeys(LoadSources(dir, loadable, registered, includeObserved))
    {
      ghost var before := edges;
      match loadable {
        case Some(paths) =>
          ghost var more;
          seen' := LoadManifestActivePaths(paths, seen);
          seen', more := LoadLegacyExplicit(dir, registered, includeObserved, seen');
          More(before, paths, more);
          order := paths + more;
        case None =>
          seen', order := LoadFallback(dir, registered, includeObserved, seen);
      }
      OrderLoaded(before, order);
    }

    /**
     * `rebuild`: the store projections, none of which pairs a transcript with
     * EDITED_FILE, then the sidecars, in the order the files happened to be read.
     */
    static method Rebuild(projected: seq<Edge>, dir: EdgesDir, loadable: Option<seq<Source>>,
                          registered: Option<set<string>>, includeObserved: bool)
      returns (index: EdgeIndex, ghost order: seq<Source>)
      requires forall e :: e in projected ==> DerivedToolProjection(e).None?
      ensures fresh(index) && index.Indexed() && DistinctKeys(EdgeKey, index.edges)
      ensures index.edges == FirstOccurrences(projected + EdgesInOrder(order))
      ensures PathSources(order) == LoadSources(dir, loadable, registered, includeObserved)
      ensures FirstOccurrences(projected) <= index.edges
      ensures Keys(index.edges)
           == Keys(projected) + SourcesKeys(LoadSources(dir, loadable, registered, includeObserved))
      ensures Closed(Keys(index.edges))
    {
      var seen;
      index, seen := FromEdges(projected);
      ghost var before := index.edges;
      seen, order := index.LoadSidecarEdges(dir, loadable, registered, includeObserved, seen);
      RebuiltKeysClosed(projected, LoadSources(dir, loadable, registered, includeObserved));
      RebuiltEdges(projected, EdgesInOrder(order));
    }
  }

  // ---- steps of the loading loops ----

  lemma {:induction false} IdsNonEmpty(edges: seq<Edge>, q: Query)
    ensures Ids(edges, q) != [] <==> exists i :: 0 <= i < |edges| && Matches(edges[i], q)
  {
    if edges != [] {
      var n := |edges| - 1;
      IdsNonEmpty(edges[..n], q);
      if Ids(edges[..n], q) != [] {
        var i :| 0 <= i < n && Matches(edges[..n][i], q);
        assert Matches(edges[i], q);
      }
      if exists i :: 0 <= i < |edges| && Matches(edges[i], q) {
        var i :| 0 <= i < |edges| && Matches(edges[i], q);
        if i < n {
          assert Matches(edges[..n][i], q);
        }
      }
    }
  }

  lemma RebuiltKeysClosed(projected: seq<Edge>, srcs: set<Source>)
    requires forall e :: e in projected ==> DerivedToolProjection(e).None?
    ensures Closed(Keys(projected) + SourcesKeys(srcs))
  {
    SourcesKeysClosed(srcs);
    forall k | k in Keys(projected)
      ensures ProjectionKey(k).None?
    {
      var e :| e in projected && EdgeKey(e) == k;
      ProjectionHasKey(e);
    }
  }

  lemma AddEdgeKeys(seen: set<BareEdge>, e: Edge)
    ensures seen + EdgeKeys(e)
         == match DerivedToolProjection(e)
            case Some(p) => seen + {e.Key()} + {p.Key()}
            case None => seen + {e.Key()}
  {
  }

  lemma InsertOneOrTwo(before: seq<Edge>, e: Edge)
    ensures InsertAll(before, []) == before
    ensures InsertAll(before, WithProjection(e))
         == match DerivedToolProjection(e)
            case Some(p) => Inserted(Inserted(before, e), p)
            case None => Inserted(before, e)
  {
    assert [e][..0] == [];
    assert InsertAll(before, [e]) == Inserted(before, e);
    if DerivedToolProjection(e).Some? {
      assert WithProjection(e)[..1] == [e];
    }
  }

  lemma LinesStep(before: seq<Edge>, src: Source, i: nat)
    requires i < |src.lines|
    ensures var load := EdgesOfLine(src.mode);
            InsertAll(InsertAll(before, FlatMap(load, src.lines[..i])), load(src.lines[i]))
            == InsertAll(before, FlatMap(load, src.lines[..i + 1]))
  {
    assert src.lines[..i + 1][..i] == src.lines[..i];
    InsertAllConcat(before, FlatMap(EdgesOfLine(src.mode), src.lines[..i]), EdgesOfLine(src.mode)(src.lines[i]));
  }

  /** One more file, one more run of files. */
  lemma OneMore(before: seq<Edge>, order: seq<Source>, src: Source)
    ensures InsertAll(InsertAll(before, EdgesInOrder(order)), FileEdges(src))
         == InsertAll(before, EdgesInOrder(order + [src]))
    ensures PathSources(order + [src]) == PathSources(order) + {src}
  {
    FlatMapOne(FileEdges, src);
    More(before, order, [src]);
    assert PathSources([src]) == {src};
  }

  lemma More(before: seq<Edge>, order: seq<Source>, more: seq<Source>)
    ensures InsertAll(InsertAll(before, EdgesInOrder(order)), EdgesInOrder(more))
         == InsertAll(before, EdgesInOrder(order + more))
    ensures PathSources(order + more) == PathSources(order) + PathSources(more)
  {
    FlatMapConcat(FileEdges, order, more);
    InsertAllConcat(before, EdgesInOrder(order), EdgesInOrder(more));
  }

  lemma KeysTwo(e: Edge)
    ensures Keys(WithProjection(e)) == EdgeKeys(e)
  {
    KeysOne(EdgeKey, e);
    if DerivedToolProjection(e).Some? {
      KeysPush([e], DerivedToolProjection(e).value);
      assert WithProjection(e) == [e] + [DerivedToolProjection(e).value];
    }
  }

  lemma {:induction false} FileEdgesKeys(mode: LoadMode, lines: seq<Line>)
    ensures Keys(FlatMap(EdgesOfLine(mode), lines)) == LinesKeys(mode, lines)
  {
    if lines != [] {
      var before, line := lines[..|lines| - 1], lines[|lines| - 1];
      FileEdgesKeys(mode, before);
      KeysConcat(EdgeKey, FlatMap(EdgesOfLine(mode), before), EdgesOfLine(mode)(line));
      if Keeps(mode, line) {
        KeysTwo(line.edge.value);
      }
    }
  }

  /** The keys that a file adds. */
  lemma FileLoaded(before: seq<Edge>, src: Source)
    ensures Keys(InsertAll(before, FileEdges(src))) == Keys(before) + FileKeys(src)
  {
    InsertAllFresh(before, FileEdges(src));
    FileEdgesKeys(src.mode, src.lines);
  }

  lemma {:induction false} OrderKeys(order: seq<Source>)
    ensures Keys(EdgesInOrder(order)) == SourcesKeys(PathSources(order))
  {
    if order != [] {
      var before, src := order[..|order| - 1], order[|order| - 1];
      OrderKeys(before);
      DropLast(order);
      KeysConcat(EdgeKey, EdgesInOrder(before), FileEdges(src));
      FileEdgesKeys(src.mode, src.lines);
      assert PathSources(order) == PathSources(before) + {src};
      SourcesKeysUnion(PathSources(before), {src});
      SourcesKeysSingle(src);
    }
  }

  /** The keys that files add, in whatever order. */
  lemma OrderLoaded(before: seq<Edge>, order: seq<Source>)
    ensures Keys(InsertAll(before, EdgesInOrder(order))) == Keys(before) + SourcesKeys(PathSources(order))
  {
    InsertAllFresh(before, EdgesInOrder(order));
    OrderKeys(order);
  }

  /** Every edge that loading adds is that of a kept line of a file read, or its projection. */
  lemma LoadedFrom(before: seq<Edge>, order: seq<Source>, e: Edge) returns (src: Source, i: nat)
    requires e in InsertAll(before, EdgesInOrder(order)) && e !in before
    ensures src in order && i < |src.lines| && Keeps(src.mode, src.lines[i])
    ensures e in WithProjection(src.lines[i].edge.value)
  {
    InsertAllFresh(before, EdgesInOrder(order));
    FreshSubset(EdgeKey, Keys(before), EdgesInOrder(order));
    src := FlatMapMember(FileEdges, order, e);
    var line := FlatMapMember(EdgesOfLine(src.mode), src.lines, e);
    i :| 0 <= i < |src.lines| && src.lines[i] == line;
  }

  /** In whatever order the files are read, they leave the same edges in the index. */
  ghost predicate FileOrderFree(before: seq<Edge>, srcs: set<Source>) {
    forall a, b :: PathSources(a) == srcs && PathSources(b) == srcs ==>
                     SameMembers(InsertAll(before, EdgesInOrder(a)), InsertAll(before, EdgesInOrder(b)))
  }

  /** No two files keep different edges under one key that is new. */
  ghost predicate FilesAgree(before: seq<Edge>, srcs: set<Source>) {
    forall s, t, e, f ::
      (s in srcs && t in srcs && e in FirstOccurrences(FileEdges(s)) && f in FirstOccurrences(FileEdges(t))
       && EdgeKey(e) == EdgeKey(f) && EdgeKey(e) !in Keys(before)) ==> e == f
  }

  /** The metadata loaded depends on the order of the files exactly when two of them disagree. */
  lemma FileOrderExactly(before: seq<Edge>, srcs: set<Source>)
    ensures FileOrderFree(before, srcs) <==> FilesAgree(before, srcs)
  {
    PartOrderIrrelevant(EdgeKey, FileEdges, Keys(before), srcs);
    AgreeingParts(before, srcs);
    OrderFreeParts(before, srcs);
  }

  lemma AgreeingParts(before: seq<Edge>, srcs: set<Source>)
    ensures PartsAgree(EdgeKey, FileEdges, Keys(before), srcs) <==> FilesAgree(before, srcs)
  {
    if PartsAgree(EdgeKey, FileEdges, Keys(before), srcs) {
      forall s, t, e, f | s in srcs && t in srcs
          && e in FirstOccurrences(FileEdges(s)) && f in FirstOccurrences(FileEdges(t))
          && EdgeKey(e) == EdgeKey(f) && EdgeKey(e) !in Keys(before)
        ensures e == f
      {
        assert KeptInPart(EdgeKey, FileEdges, Keys(before), srcs, e);
        assert KeptInPart(EdgeKey, FileEdges, Keys(before), srcs, f);
      }
    }
  }

  lemma SameAdded(before: seq<Edge>, a: seq<Edge>, b: seq<Edge>)
    ensures SameMembers(InsertAll(before, a), InsertAll(before, b))
            <==> SameMembers(Fresh(EdgeKey, Keys(before), a), Fresh(EdgeKey, Keys(before), b))
  {
    InsertAllFresh(before, a);
    InsertAllFresh(before, b);
    FreshIsNew(before, a);
    FreshIsNew(before, b);
    BehindSame(before, Fresh(EdgeKey, Keys(before), a), Fresh(EdgeKey, Keys(before), b));
  }

  lemma FreshIsNew(before: seq<Edge>, batch: seq<Edge>)
    ensures forall e :: e in before ==> e !in Fresh(EdgeKey, Keys(before), batch)
  {
    FreshShrinks(EdgeKey, {}, Keys(before), batch);
    assert {} + Keys(before) == Keys(before);
    assert forall e :: e in before ==> EdgeKey(e) in Keys(before);
  }

  lemma BehindSame(before: seq<Edge>, a: seq<Edge>, b: seq<Edge>)
    requires forall e :: e in before ==> e !in a && e !in b
    ensures SameMembers(before + a, before + b) <==> SameMembers(a, b)
  {
    if SameMembers(before + a, before + b) {
      forall e
        ensures e in a <==> e in b
      {
        assert e in before + a <==> e in before || e in a;
        assert e in before + b <==> e in before || e in b;
      }
    }
  }

  lemma OrderFreeParts(before: seq<Edge>, srcs: set<Source>)
    ensures PartOrderFree(EdgeKey, FileEdges, Keys(before), srcs) <==> FileOrderFree(before, srcs)
  {
    if PartOrderFree(EdgeKey, FileEdges, Keys(before), srcs) {
      forall a, b | PathSources(a) == srcs && PathSources(b) == srcs
        ensures SameMembers(InsertAll(before, EdgesInOrder(a)), InsertAll(before, EdgesInOrder(b)))
      {
        SameAdded(before, EdgesInOrder(a), EdgesInOrder(b));
      }
    }
    if FileOrderFree(before, srcs) {
      forall a: seq<Source>, b: seq<Source> | Members(a) == srcs && Members(b) == srcs
        ensures SameMembers(Fresh(EdgeKey, Keys(before), FlatMap(FileEdges, a)),
                            Fresh(EdgeKey, Keys(before), FlatMap(FileEdges, b)))
      {
        assert PathSources(a) == srcs && PathSources(b) == srcs;
        SameAdded(before, EdgesInOrder(a), EdgesInOrder(b));
      }
    }
  }

  lemma RebuiltEdges(projected: seq<Edge>, loaded: seq<Edge>)
    ensures InsertAll(FirstOccurrences(projected), loaded) == FirstOccurrences(projected + loaded)
    ensures FirstOccurrences(projected) <= FirstOccurrences(projected + loaded)
  {
    InsertRun(projected);
    InsertRun(projected + loaded);
    InsertAllConcat([], projected, loaded);
    InsertAllFresh(FirstOccurrences(projected), loaded);
  }

  lemma SourcesKeysSingle(src: Source)
    ensures SourcesKeys({src}) == FileKeys(src)
  {
    assert src in {src};
  }

  lemma StemSourcesStep(folder: Folder, done: set<string>, stem: string,
                        registered: Option<set<string>>, skipDerivedFor: set<string>)
    requires stem in folder
    ensures StemSources(folder, done + {stem}, registered, skipDerivedFor)
         == StemSources(folder, done, registered, skipDerivedFor)
          + (if StemRegistered(stem, registered) then {FolderSource(folder, stem, skipDerivedFor)} else {})
  {
  }

  lemma NamespaceSourcesStep(lane: Lane, done: set<string>, name: string, registered: Option<set<string>>)
    requires name in lane.namespaces
    ensures NamespaceSources(lane, done + {name}, registered)
         == NamespaceSources(lane, done, registered) + FolderSources(lane.namespaces[name], registered, {})
  {
  }

  function OneLaneSource(files: Folder, id: string): set<Source> {
    if id in files then {Source(files[id], Full)} else {}
  }

  function ProjectLaneSources(dir: EdgesDir, id: string, includeObserved: bool): set<Source> {
    OneLaneSource(dir.explicit.files, id)
    + (if includeObserved then OneLaneSource(dir.observed.files, id) else {})
  }

  function MigratedSources(dir: EdgesDir, ids: set<string>, registered: Option<set<string>>,
                           includeObserved: bool): set<Source>
  {
    LaneFileSources(dir.explicit.files, ids, registered)
    + (if includeObserved then LaneFileSources(dir.observed.files, ids, registered) else {})
  }

  lemma LaneFileStep(files: Folder, done: set<string>, id: string, registered: Option<set<string>>)
    ensures LaneFileSources(files, done + {id}, registered)
         == LaneFileSources(files, done, registered)
          + (if IdRegistered(id, registered) then OneLaneSource(files, id) else {})
  {
  }

  lemma MigratedStep(dir: EdgesDir, done: set<string>, id: string, registered: Option<set<string>>,
                     includeObserved: bool)
    ensures MigratedSources(dir, done + {id}, registered, includeObserved)
         == MigratedSources(dir, done, registered, includeObserved)
          + (if IdRegistered(id, registered) then ProjectLaneSources(dir, id, includeObserved) else {})
  {
    LaneFileStep(dir.explicit.files, done, id, registered);
    LaneFileStep(dir.observed.files, done, id, registered);
  }
}
