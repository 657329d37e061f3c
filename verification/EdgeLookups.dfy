/** What the lookups of the edge index find, in terms of the edges themselves (src/edge_index.rs). */
module EdgeLookups {
  import opened EntityRefs
  import opened Edges
  import opened EdgeIndexes
  import opened Seqs

  lemma {:induction false} ScanFilters(edges: seq<Edge>, q: Query)
    ensures Scan(edges, q) == Filter(e => Matches(e, q), edges)
  {
    if edges != [] {
      ScanFilters(edges[..|edges| - 1], q);
    }
  }

  predicate OfTranscript(e: Edge, provider: string, sessionId: string) {
    match e.source
    case Transcript(p, s, _, _) => p == provider && s == sessionId
    case _ => false
  }

  /** The tool calls of a session: its transcripts' edits, reads and shell commands, in the order inserted. */
  lemma SessionFound(edges: seq<Edge>, provider: string, sessionId: string)
    ensures Scan(edges, BySession(provider, sessionId))
         == Filter((e: Edge) => (e.kind == "EDITED_FILE" || e.kind == "READ_FILE" || e.kind == "RAN_BASH")
                                && OfTranscript(e, provider, sessionId), edges)
  {
    ScanFilters(edges, BySession(provider, sessionId));
    FilterAgree(e => Matches(e, BySession(provider, sessionId)),
                (e: Edge) => (e.kind == "EDITED_FILE" || e.kind == "READ_FILE" || e.kind == "RAN_BASH")
                             && OfTranscript(e, provider, sessionId), edges);
  }

  /** The edits anchored at a commit, in the order inserted. */
  lemma AnchorFound(edges: seq<Edge>, sha: string)
    requires forall e :: e in edges ==> UniqueMetadata(e.metadata)
    ensures Scan(edges, ByAnchor(sha))
         == Filter((e: Edge) => e.kind == "EDITED_FILE" && ("anchor.commit_sha_at_edit", sha) in e.metadata, edges)
  {
    ScanFilters(edges, ByAnchor(sha));
    forall e | e in edges
      ensures Matches(e, ByAnchor(sha))
              <==> e.kind == "EDITED_FILE" && ("anchor.commit_sha_at_edit", sha) in e.metadata
    {
      MetadataFound(e.metadata, "anchor.commit_sha_at_edit", sha);
    }
    FilterAgree(e => Matches(e, ByAnchor(sha)),
                (e: Edge) => e.kind == "EDITED_FILE" && ("anchor.commit_sha_at_edit", sha) in e.metadata, edges);
  }

  /** The edges from a reference and those to it, in the order inserted. */
  lemma EndpointFound(edges: seq<Edge>, r: EntityRef)
    ensures Scan(edges, BySource(r)) == Filter((e: Edge) => e.source == r, edges)
    ensures Scan(edges, ByTarget(r)) == Filter((e: Edge) => e.target == r, edges)
  {
    ScanFilters(edges, BySource(r));
    ScanFilters(edges, ByTarget(r));
    FilterAgree(e => Matches(e, BySource(r)), (e: Edge) => e.source == r, edges);
    FilterAgree(e => Matches(e, ByTarget(r)), (e: Edge) => e.target == r, edges);
  }
}
