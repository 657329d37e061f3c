/**
 * What the writers of sidecars leave in a file, in terms of the edges and lines
 * themselves (src/edge_index.rs).
 */
module SidecarRewrites {
  import opened Wrappers
  import opened Text
  import opened Seqs
  import KeyedMerge
  import opened EntityRefs
  import opened Edges
  import opened ManagedSidecars

  // ---- reading ----

  /** A sidecar holds the edges of its lines that parse and are not blank, in order. */
  lemma LineRead(lines: seq<Line>, l: Line)
    ensures ReadEdges([]) == []
    ensures ReadEdges(lines + [l])
         == ReadEdges(lines) + (if l.edge.Some? && !Blank(l.text) then [l.edge.value] else [])
  {
    FlatMapConcat(LineEdge, lines, [l]);
    FlatMapOne(LineEdge, l);
    TrimmedBlank(l.text);
  }

  /** The append looks at every line that parses, blank or not. */
  lemma LineSeen(lines: seq<Line>, l: Line)
    ensures LinesKeys([]) == {}
    ensures LinesKeys(lines + [l])
         == LinesKeys(lines) + (if l.edge.Some? then {ImportKey(l.edge.value)} else {})
  {
    FlatMapConcat(ParsedEdge, lines, [l]);
    FlatMapOne(ParsedEdge, l);
    KeyedMerge.KeysConcat(ImportKey, FlatMap(ParsedEdge, lines), ParsedEdge(l));
  }

  // ---- what replaces what ----

  /** A project file with that path hash, of either generation. */
  predicate FileOf(r: EntityRef, h: string) {
    match r
    case ProjectFile(_, hash, _, _) => hash == h
    case ProjectFileV2(_, _, hash, _, _) => hash == h
    case _ => false
  }

  /** The path hashes of the files that the edges of a batch start from or point to. */
  ghost predicate FilesOf(batch: seq<BareEdge>, hashes: set<string>) {
    forall h :: h in hashes <==> exists b :: b in batch && (FileOf(b.source, h) || FileOf(b.target, h))
  }

  /** An old edge as it is written back: without its metadata. */
  function Rewrite(e: Edge): Edge {
    Edge(e.source, e.kind, e.target, e.provenance, e.confidence, [])
  }

  /** A new edge as it is written: it has no metadata. */
  function Write(b: BareEdge): Edge {
    Edge(b.source, b.kind, b.target, b.provenance, b.confidence, [])
  }

  lemma StripRewrites(edges: seq<Edge>)
    ensures StripAll(edges) == MapSeq(Rewrite, edges)
  {
  }

  lemma PersistWrites(batch: seq<BareEdge>)
    ensures PersistAll(batch) == MapSeq(Write, batch)
  {
  }

  lemma KeepFilters(edges: seq<Edge>, stale: set<string>)
    ensures Keep(edges, stale) == Filter(e => !FiledAmong(e, stale), edges)
  {
    FilterAgree(NotFiledUnder(stale), e => !FiledAmong(e, stale), edges);
  }

  lemma BatchFiles(batch: seq<BareEdge>, hashes: set<string>)
    ensures FilesOf(batch, hashes) <==> hashes == BatchHashes(PersistAll(batch))
  {
    HashesDetermined(PersistAll(batch), hashes);
    forall h
      ensures IsMentioned(PersistAll(batch), h)
              <==> exists b :: b in batch && (FileOf(b.source, h) || FileOf(b.target, h))
    {
      MentionedByBatch(batch, h);
    }
  }

  lemma MentionedByBatch(batch: seq<BareEdge>, h: string)
    ensures IsMentioned(PersistAll(batch), h)
            <==> exists b :: b in batch && (FileOf(b.source, h) || FileOf(b.target, h))
  {
    var edges := PersistAll(batch);
    forall i | 0 <= i < |batch|
      ensures Mentions(edges[i], h) <==> FileOf(batch[i].source, h) || FileOf(batch[i].target, h)
    {
      assert edges[i] == Persist(batch[i]);
    }
    if b :| b in batch && (FileOf(b.source, h) || FileOf(b.target, h)) {
      var i :| 0 <= i < |batch| && batch[i] == b;
      assert edges[i] in edges;
    }
  }

  /**
   * An incremental replacement keeps the old edges that are filed under no file of the
   * batch, in order and without their metadata, and then has the batch.
   */
  lemma ReplacedExactly(existing: seq<Edge>, batch: seq<BareEdge>, hashes: set<string>)
    requires FilesOf(batch, hashes)
    ensures Incremental(existing, PersistAll(batch), BatchHashes(PersistAll(batch)))
         == MapSeq(Rewrite, Filter((e: Edge) => !FiledAmong(e, hashes), existing)) + MapSeq(Write, batch)
  {
    BatchFiles(batch, hashes);
    KeepFilters(existing, hashes);
    StripRewrites(Keep(existing, hashes));
    PersistWrites(batch);
  }

  /** What a purge leaves and how many edges it drops. */
  lemma PurgedExactly(existing: seq<Edge>, stale: set<string>)
    ensures StripAll(Keep(existing, stale)) == MapSeq(Rewrite, Filter((e: Edge) => !FiledAmong(e, stale), existing))
    ensures |existing| - |Keep(existing, stale)| == |Filter((e: Edge) => FiledAmong(e, stale), existing)|
  {
    KeepFilters(existing, stale);
    StripRewrites(Keep(existing, stale));
    FilterSplits(existing, stale);
  }

  lemma {:induction false} FilterSplits(edges: seq<Edge>, stale: set<string>)
    ensures |Keep(edges, stale)| + |Filter((e: Edge) => FiledAmong(e, stale), edges)| == |edges|
  {
    if edges != [] {
      FilterSplits(edges[..|edges| - 1], stale);
    }
  }

  // ---- what merging compares ----

  /** The commit an edge is anchored at, empty when it has no anchor. */
  predicate AnchoredAt(e: Edge, commit: string) {
    || ("anchor.commit_sha_at_edit", commit) in e.metadata
    || (commit == "" && forall m :: m in e.metadata ==> m.0 != "anchor.commit_sha_at_edit")
  }

  /** Edges are compared by source, kind, target and commit, with NULs between. */
  lemma ImportKeyExactly(e: Edge, commit: string)
    requires UniqueMetadata(e.metadata) && AnchoredAt(e, commit)
    ensures ImportKey(e) == Display(e.source) + "\0" + e.kind + "\0" + Display(e.target) + "\0" + commit
  {
    CommitFound(e, commit);
    var a, b, c := Display(e.source), e.kind, Display(e.target);
    assert a + "\0" + b + "\0" + c + "\0" + commit == a + ['\0'] + (b + ['\0'] + (c + ['\0'] + commit));
  }

  lemma CommitFound(e: Edge, commit: string)
    requires UniqueMetadata(e.metadata) && AnchoredAt(e, commit)
    ensures CommitOf(e) == commit
  {
    MetadataFound(e.metadata, "anchor.commit_sha_at_edit", commit);
    match e.Anchor() {
      case Some(found) => MetadataFound(e.metadata, "anchor.commit_sha_at_edit", found);
      case None =>
    }
  }

  /** Merging rewrites every old edge and appends the new ones whose key is new, each key once. */
  lemma MergedExactly(existing: seq<Edge>, batch: seq<BareEdge>)
    ensures Merged(existing, PersistAll(batch))
         == MapSeq(Rewrite, existing)
            + KeyedMerge.Fresh(ImportKey, KeyedMerge.KeysOf(ImportKey, existing), MapSeq(Write, batch))
  {
    StripRewrites(existing);
    PersistWrites(batch);
  }
}
