/**
 * The line written for an edge as a plain concatenation of its members
 * (src/edge_index.rs, src/entity_ref.rs); `EdgeLines` prints it from the end.
 */
module EdgeTexts {
  import opened Wrappers
  import opened Text
  import opened EntityRefs
  import opened Edges
  import opened EdgeLines

  function Quoted(s: string): string {
    QuoteOnto(s, "")
  }

  function ScalarText(v: Scalar): string {
    match v
    case Str(text) => Quoted(text)
    case Num(n) => ShowDecimal(n)
    case Null => "null"
  }

  function Member(key: string, value: string): string {
    Quoted(key) + ":" + value
  }

  function Listed(fields: seq<(string, Scalar)>): string {
    if fields == [] then ""
    else if |fields| == 1 then Member(fields[0].0, ScalarText(fields[0].1))
    else Member(fields[0].0, ScalarText(fields[0].1)) + "," + Listed(fields[1..])
  }

  function Object(fields: seq<(string, Scalar)>): string {
    "{" + Listed(fields) + "}"
  }

  lemma {:induction false} EscapeInFront(s: string, a: string, b: string)
    ensures EscapeOnto(s, a + b) == EscapeOnto(s, a) + b
    decreases |s|
  {
    if s != "" {
      EscapeInFront(s[1..], a, b);
      Regroup(EscapeChar(s[0]), EscapeOnto(s[1..], a), b);
    }
  }

  lemma Regroup(a: string, b: string, c: string)
    ensures a + (b + c) == a + b + c
  {
  }

  lemma QuoteInFront(s: string, rest: string)
    ensures QuoteOnto(s, rest) == Quoted(s) + rest
  {
    assert ['"'] + rest == ['"'] + "" + rest;
    EscapeInFront(s, ['"'] + "", rest);
    Regroup(['"'], EscapeOnto(s, ['"'] + ""), rest);
  }

  lemma ScalarInFront(v: Scalar, rest: string)
    ensures ScalarOnto(v, rest) == ScalarText(v) + rest
  {
    if v.Str? {
      QuoteInFront(v.text, rest);
    }
  }

  lemma MemberInFront(key: string, value: string, rest: string)
    ensures QuoteOnto(key, [':'] + (value + rest)) == Member(key, value) + rest
  {
    QuoteInFront(key, [':'] + (value + rest));
    assert Quoted(key) + ([':'] + (value + rest)) == Quoted(key) + ":" + value + rest;
  }

  lemma {:induction false} FieldsInFront(fields: seq<(string, Scalar)>, rest: string)
    ensures FieldsOnto(fields, rest) == Listed(fields) + rest
    decreases |fields|
  {
    if fields != [] {
      var key, value := fields[0].0, fields[0].1;
      var behind := if |fields| == 1 then rest else [','] + FieldsOnto(fields[1..], rest);
      ScalarInFront(value, behind);
      MemberInFront(key, ScalarText(value), behind);
      if |fields| > 1 {
        FieldsInFront(fields[1..], rest);
        Comma(Member(key, ScalarText(value)), Listed(fields[1..]), rest);
      }
    }
  }

  lemma Comma(a: string, b: string, rest: string)
    ensures a + ([','] + (b + rest)) == a + "," + b + rest
  {
  }

  function ReferenceText(r: EntityRef): string {
    Object(RefFields(r))
  }

  /** The members of a reference: its type, and its fields under their names. */
  lemma IdReferences(x: string)
    ensures RefFields(Knowledge(x)) == [("type", Str("knowledge")), ("id", Str(x))]
    ensures RefFields(File(x)) == [("type", Str("file")), ("path", Str(x))]
    ensures RefFields(Thread(x)) == [("type", Str("thread")), ("thread_id", Str(x))]
    ensures RefFields(Note(x)) == [("type", Str("note")), ("note_id", Str(x))]
  {
  }

  lemma NameReferences(x: string)
    ensures RefFields(Brofile(x)) == [("type", Str("brofile")), ("name", Str(x))]
    ensures RefFields(Whiteboard(x)) == [("type", Str("whiteboard")), ("board_id", Str(x))]
    ensures RefFields(Task(x)) == [("type", Str("task")), ("task_id", Str(x))]
  {
  }

  lemma PlanReferences(x: string)
    ensures RefFields(Packet(x)) == [("type", Str("packet")), ("selector", Str(x))]
    ensures RefFields(RoadmapItem(x)) == [("type", Str("roadmap_item")), ("id", Str(x))]
  {
  }

  lemma PairReferences(x: string, y: string, n: u32)
    ensures RefFields(Session(x, y)) == [("type", Str("session")), ("provider", Str(x)), ("session_id", Str(y))]
    ensures RefFields(Commit(x, y)) == [("type", Str("commit")), ("repo_id", Str(x)), ("sha", Str(y))]
    ensures RefFields(BashCall(x, n)) == [("type", Str("bash_call")), ("session", Str(x)), ("turn", Num(n))]
    ensures RefFields(Agent(x, n)) == [("type", Str("agent")), ("name", Str(x)), ("version", Num(n))]
  {
  }

  lemma ProjectReferences(p: string, s: string, h: string, d: string, n: u32)
    ensures RefFields(ProjectFile(p, h, d, n))
         == [("type", Str("project_file")), ("project_id", Str(p)), ("rel_path_hash", Str(h)),
             ("chunk_hash", Str(d)), ("occurrence_idx", Num(n))]
    ensures RefFields(ProjectFileV2(p, s, h, d, n))
         == [("type", Str("project_file_v2")), ("project_id", Str(p)), ("snapshot_id", Str(s)),
             ("rel_path_hash", Str(h)), ("chunk_hash", Str(d)), ("occurrence_idx", Num(n))]
    ensures RefFields(Symbol(p, h, d))
         == [("type", Str("symbol")), ("project_id", Str(p)), ("qualified_name", Str(h)), ("defn_hash", Str(d))]
    ensures RefFields(SymbolV2(p, s, h, d))
         == [("type", Str("symbol_v2")), ("project_id", Str(p)), ("snapshot_id", Str(s)),
             ("qualified_name", Str(h)), ("defn_hash", Str(d))]
  {
  }

  lemma TranscriptReferences(p: string, s: string, line: u64, n: u32)
    ensures RefFields(Transcript(p, s, line, n))
         == [("type", Str("transcript")), ("provider", Str(p)), ("session_id", Str(s)), ("line_offset", Num(line)),
             ("event_idx", Num(n))]
  {
  }

  lemma ArtifactReferences(p: string, s: string, h: string)
    ensures RefFields(Artifact(p, s, Some(h)))
         == [("type", Str("artifact")), ("kind", Str(p)), ("name", Str(s)), ("version", Str(h))]
    ensures RefFields(Artifact(p, s, None))
         == [("type", Str("artifact")), ("kind", Str(p)), ("name", Str(s)), ("version", Null)]
  {
  }

  /** The metadata is left out when there is none. */
  function MetadataText(e: Edge): string {
    if e.metadata == [] then "" else "," + Member("metadata", Object(MetadataFields(e.metadata)))
  }

  function ProvenanceText(p: Provenance): string {
    if p == Explicit then "explicit" else if p == Derived then "derived" else "implicit"
  }

  function ConfidenceText(c: Confidence): string {
    if c == Exact then "exact" else if c == Heuristic then "heuristic" else "unknown"
  }

  lemma Braces(a: string, rest: string)
    ensures [':', '{'] + (a + ("}" + rest)) == [':'] + ("{" + a + "}" + rest)
  {
  }

  /** A member whose value is an object. */
  lemma ObjectInFront(key: string, fields: seq<(string, Scalar)>, rest: string)
    ensures QuoteOnto(key, [':', '{'] + FieldsOnto(fields, "}" + rest)) == Member(key, Object(fields)) + rest
  {
    FieldsInFront(fields, "}" + rest);
    Braces(Listed(fields), rest);
    MemberInFront(key, Object(fields), rest);
  }

  lemma MetadataPrinted(e: Edge)
    ensures FromMetadata(e) == MetadataText(e) + "}"
  {
    if e.metadata != [] {
      assert "}" + "}" == "}}";
      ObjectInFront("metadata", MetadataFields(e.metadata), "}");
    }
  }

  lemma ConfidencePrinted(e: Edge)
    ensures FromConfidence(e) == "," + Member("confidence", Quoted(ConfidenceText(e.confidence))) + FromMetadata(e)
  {
    QuoteInFront(ConfidenceText(e.confidence), FromMetadata(e));
    MemberInFront("confidence", Quoted(ConfidenceText(e.confidence)), FromMetadata(e));
  }

  lemma WordSpelled()
    ensures WORD == "provenance"
  {
  }

  lemma ProvenanceMember(e: Edge, value: string)
    requires ProvenanceValue(e) == value + FromConfidence(e)
    ensures PROVENANCE_KEY + ([':'] + ProvenanceValue(e)) == Member("provenance", value) + FromConfidence(e)
  {
    WordPrinted([':'] + ProvenanceValue(e));
    WordSpelled();
    MemberInFront("provenance", value, FromConfidence(e));
  }

  lemma Closed(member: string)
    ensures ['}', ','] + member == "}" + ("," + member)
  {
  }

  lemma ProvenancePrinted(e: Edge)
    ensures FromProvenance(e)
         == "}" + ("," + (Member("provenance", Quoted(ProvenanceText(e.provenance))) + FromConfidence(e)))
  {
    var value := Quoted(ProvenanceText(e.provenance));
    QuoteInFront(ProvenanceText(e.provenance), FromConfidence(e));
    ProvenanceMember(e, value);
    Closed(Member("provenance", value) + FromConfidence(e));
  }

  lemma TargetPrinted(e: Edge, rest: string)
    requires FromProvenance(e) == "}" + rest
    ensures FromTarget(e) == "," + Member("target", ReferenceText(e.target)) + rest
  {
    ObjectInFront("target", RefFields(e.target), rest);
  }

  lemma KindPrinted(e: Edge)
    ensures FromKind(e) == "}" + ("," + (Member("kind", Quoted(e.kind)) + FromTarget(e)))
  {
    QuoteInFront(e.kind, FromTarget(e));
    MemberInFront("kind", Quoted(e.kind), FromTarget(e));
    Closed(Member("kind", Quoted(e.kind)) + FromTarget(e));
  }

  lemma SourcePrinted(e: Edge, rest: string)
    requires FromKind(e) == "}" + rest
    ensures PrintEdge(e) == "{" + Member("source", ReferenceText(e.source)) + rest
  {
    ObjectInFront("source", RefFields(e.source), rest);
  }

  /** The members of an edge, in their order. */
  lemma EdgePrinted(e: Edge)
    ensures PrintEdge(e)
         == "{" + Member("source", ReferenceText(e.source))
            + ("," + Member("kind", Quoted(e.kind))
            + ("," + Member("target", ReferenceText(e.target))
            + ("," + Member("provenance", Quoted(ProvenanceText(e.provenance)))
            + ("," + Member("confidence", Quoted(ConfidenceText(e.confidence)))
            + (MetadataText(e) + "}")))))
  {
    MetadataPrinted(e);
    ConfidencePrinted(e);
    ProvenancePrinted(e);
    TargetPrinted(e, "," + (Member("provenance", Quoted(ProvenanceText(e.provenance))) + FromConfidence(e)));
    KindPrinted(e);
    SourcePrinted(e, "," + (Member("kind", Quoted(e.kind)) + FromTarget(e)));
    Regroup(",", Member("provenance", Quoted(ProvenanceText(e.provenance))), FromConfidence(e));
    Regroup(",", Member("kind", Quoted(e.kind)), FromTarget(e));
  }
}
