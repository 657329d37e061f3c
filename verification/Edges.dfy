/**
 * Graph edges (src/edge_index.rs, src/chunker/mod.rs) and the attributes every
 * part of the edge store looks at.
 */
module Edges {
  import opened Wrappers
  import opened EntityRefs

  datatype Provenance = Explicit | Derived | Implicit
  datatype Confidence = Exact | Heuristic | Unknown

  /**
   * The five fields shared by a chunker edge, which carries no metadata, and by
   * the deduplication key of an edge, which ignores it.
   */
  datatype BareEdge = BareEdge(
    source: EntityRef, kind: string, target: EntityRef,
    provenance: Provenance, confidence: Confidence)

  /** An edge; the metadata is listed in key order. */
  datatype Edge = Edge(
    source: EntityRef, kind: string, target: EntityRef,
    provenance: Provenance, confidence: Confidence, metadata: seq<(string, string)>)
  {
    function Key(): BareEdge {
      BareEdge(source, kind, target, provenance, confidence)
    }

    function Anchor(): Option<string> {
      MetaGet(metadata, ANCHOR_KEY)
    }
  }

  const ANCHOR_KEY := "anchor.commit_sha_at_edit"
  const EDITED_FILE := "EDITED_FILE"
  const READ_FILE := "READ_FILE"
  const RAN_BASH := "RAN_BASH"
  const EDITED_BY_SESSION := "EDITED_BY_SESSION"

  function MetaGet(metadata: seq<(string, string)>, key: string): Option<string> {
    if metadata == [] then None
    else if metadata[0].0 == key then Some(metadata[0].1)
    else MetaGet(metadata[1..], key)
  }

  /** A chunker edge as it is persisted: with empty metadata. */
  function Persist(b: BareEdge): Edge {
    Edge(b.source, b.kind, b.target, b.provenance, b.confidence, [])
  }

  /** The `EDITED_BY_SESSION` edge implied by a transcript's `EDITED_FILE` edge. */
  function DerivedToolProjection(e: Edge): Option<Edge> {
    if e.kind != EDITED_FILE || !e.source.Transcript? then None
    else
      Some(Edge(e.target, EDITED_BY_SESSION, Session(e.source.provider, e.source.sessionId),
                Derived, Exact, e.metadata))
  }

  /** The same projection on deduplication keys. */
  function ProjectionKey(k: BareEdge): Option<BareEdge> {
    if k.kind != EDITED_FILE || !k.source.Transcript? then None
    else
      Some(BareEdge(k.target, EDITED_BY_SESSION, Session(k.source.provider, k.source.sessionId),
                    Derived, Exact))
  }

  /** The project file an edge is filed under: its source if that is one, else its target. */
  function LeadHash(source: EntityRef, target: EntityRef): Option<string> {
    if source.ProjectFile? || source.ProjectFileV2? then Some(source.relPathHash)
    else if target.ProjectFile? || target.ProjectFileV2? then Some(target.relPathHash)
    else None
  }

  predicate TouchesAnyPathHash(e: Edge, stale: set<string>) {
    match LeadHash(e.source, e.target)
    case Some(h) => h in stale
    case None => false
  }

  /** The edge's source, or else its target, is a project file with one of these path hashes. */
  predicate FiledAmong(e: Edge, hashes: set<string>) {
    match (e.source, e.target)
    case (ProjectFile(_, h, _, _), _) => h in hashes
    case (ProjectFileV2(_, _, h, _, _), _) => h in hashes
    case (_, ProjectFile(_, h, _, _)) => h in hashes
    case (_, ProjectFileV2(_, _, h, _, _)) => h in hashes
    case _ => false
  }

  lemma FiledExactly(e: Edge, hashes: set<string>)
    ensures TouchesAnyPathHash(e, hashes) <==> FiledAmong(e, hashes)
  {
  }

  /** Metadata is a map: no key occurs twice. */
  predicate UniqueMetadata(metadata: seq<(string, string)>) {
    forall i, j :: 0 <= i < j < |metadata| ==> metadata[i].0 != metadata[j].0
  }

  lemma {:induction false} MetadataFound(metadata: seq<(string, string)>, key: string, value: string)
    requires UniqueMetadata(metadata)
    ensures MetaGet(metadata, key) == Some(value) <==> (key, value) in metadata
  {
    if metadata != [] {
      var first, rest := metadata[0], metadata[1..];
      assert metadata == [first] + rest;
      assert forall i, j :: 0 <= i < j < |rest| ==> rest[i] == metadata[i + 1] && rest[j] == metadata[j + 1];
      MetadataFound(rest, key, value);
      assert forall m :: m in rest ==> m.0 != first.0;
    }
  }

  /** One line of a sidecar: its text and what the JSON deserialiser makes of it. */
  datatype Line = Line(text: string, edge: Option<Edge>)
}
