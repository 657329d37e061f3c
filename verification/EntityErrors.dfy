/**
 * Which error a text behind a known type is refused with, and which field it names
 * (src/entity_ref.rs). The texts are taken apart by their colons; fields are checked
 * for being empty from the left, and numbers after that.
 */
module EntityErrors {
  import opened Wrappers
  import opened Text
  import opened EntityRefs
  import opened EntityRefLaws

  /** The error a text is refused with, if it is. */
  function Refusal(r: Result<EntityRef, ParseError>): Option<ParseError> {
    match r
    case Ok(_) => None
    case Err(e) => Some(e)
  }

  predicate IsWord(text: string) {
    ParseDecimal(text, 4294967295).Some?
  }

  predicate IsLongWord(text: string) {
    ParseDecimal(text, 18446744073709551615).Some?
  }

  // ---- one field ----

  predicate HasOneField(t: EntityType) {
    || t.KnowledgeType? || t.ThreadType? || t.NoteType? || t.BrofileType? || t.WhiteboardType? || t.TaskType?
    || t.RoadmapItemType?
  }

  lemma SingleRefused(t: EntityType, rest: string)
    requires HasOneField(t)
    ensures Refusal(ParseBody(t, rest))
         == if ':' in rest then Some(BadShape(t))
            else if rest == "" then Some(EmptyField(t, IdField))
            else None
  {
  }

  lemma FileRefused(rest: string)
    ensures Refusal(ParseBody(FileType, rest)) == if rest == "" then Some(EmptyField(FileType, PathField)) else None
  {
  }

  lemma PacketRefused(rest: string)
    ensures Refusal(ParsePacket(rest))
         == if rest == "" then Some(EmptyField(PacketType, SelectorField))
            else if "domain:" <= rest || "packet-" <= rest then None
            else Some(BadShape(PacketType))
  {
  }

  // ---- fields from both ends ----

  lemma SessionRefused(rest: string, provider: string, sessionId: string)
    requires ':' !in rest && ':' !in provider
    ensures ParseSession(rest) == Err(MissingField(SessionType, SessionIdField))
    ensures Refusal(ParseSession(provider + ":" + sessionId))
         == if provider == "" then Some(EmptyField(SessionType, ProviderField))
            else if sessionId == "" then Some(EmptyField(SessionType, SessionIdField))
            else None
  {
    SplitOnceAt(provider, ':', sessionId);
  }

  lemma BashCallRefused(rest: string, session: string, turn: string)
    requires ':' !in rest && ':' !in turn
    ensures ParseBashCall(rest) == Err(MissingField(BashCallType, TurnField))
    ensures Refusal(ParseBashCall(session + ":" + turn))
         == if session == "" then Some(EmptyField(BashCallType, SessionField))
            else if !IsWord(turn) then Some(NotNumeric(BashCallType, TurnField))
            else None
  {
    RSplitOnceAt(session, ':', turn);
  }

  lemma TranscriptRefused(provider: string, sessionId: string, line: string, event: string)
    requires ':' !in provider && ':' !in line && ':' !in event
    ensures Refusal(ParseTranscript(provider + ":" + sessionId + ":" + line + ":" + event))
         == if provider == "" then Some(EmptyField(TranscriptType, ProviderField))
            else if sessionId == "" then Some(EmptyField(TranscriptType, SessionIdField))
            else if !IsLongWord(line) then Some(NotNumeric(TranscriptType, LineOffsetField))
            else if !IsWord(event) then Some(NotNumeric(TranscriptType, EventIdxField))
            else None
  {
    RSplitOnceAt(provider + ":" + sessionId + ":" + line, ':', event);
    RSplitOnceAt(provider + ":" + sessionId, ':', line);
    SplitOnceAt(provider, ':', sessionId);
  }

  /** With fewer than three colons it is the last field still wanted that is missing. */
  lemma TranscriptMissing(head: string, line: string, event: string)
    requires ':' !in head && ':' !in line && ':' !in event
    ensures ParseTranscript(event) == Err(MissingField(TranscriptType, EventIdxField))
    ensures ParseTranscript(line + ":" + event) == Err(MissingField(TranscriptType, LineOffsetField))
    ensures ParseTranscript(head + ":" + line + ":" + event) == Err(MissingField(TranscriptType, SessionIdField))
  {
    RSplitOnceAt(line, ':', event);
    RSplitOnceAt(head + ":" + line, ':', event);
    RSplitOnceAt(head, ':', line);
  }

  lemma SymbolRefused(project: string, name: string, hash: string)
    requires ':' !in project && ':' !in hash
    ensures Refusal(ParseSymbol(project + ":" + (name + ":" + hash)))
         == if project == "" then Some(EmptyField(SymbolType, ProjectIdField))
            else if name == "" then Some(EmptyField(SymbolType, QualifiedNameField))
            else if hash == "" then Some(EmptyField(SymbolType, DefnHashField))
            else None
  {
    SplitOnceAt(project, ':', name + ":" + hash);
    RSplitOnceAt(name, ':', hash);
  }

  lemma SymbolMissing(project: string, hash: string)
    requires ':' !in project && ':' !in hash
    ensures ParseSymbol(project) == Err(MissingField(SymbolType, QualifiedNameField))
    ensures ParseSymbol(project + ":" + hash) == Err(MissingField(SymbolType, DefnHashField))
  {
    SplitOnceAt(project, ':', hash);
  }

  lemma SymbolV2Refused(project: string, snapshot: string, name: string, hash: string)
    requires ':' !in project && ':' !in snapshot && ':' !in hash
    ensures Refusal(ParseSymbolV2(project + ":" + (snapshot + ":" + (name + ":" + hash))))
         == if project == "" then Some(EmptyField(SymbolV2Type, ProjectIdField))
            else if snapshot == "" then Some(EmptyField(SymbolV2Type, SnapshotIdField))
            else if name == "" then Some(EmptyField(SymbolV2Type, QualifiedNameField))
            else if hash == "" then Some(EmptyField(SymbolV2Type, DefnHashField))
            else None
  {
    SplitOnceAt(project, ':', snapshot + ":" + (name + ":" + hash));
    SplitOnceAt(snapshot, ':', name + ":" + hash);
    RSplitOnceAt(name, ':', hash);
  }

  lemma SymbolV2Missing(project: string, snapshot: string, hash: string)
    requires ':' !in project && ':' !in snapshot && ':' !in hash
    ensures ParseSymbolV2(project) == Err(MissingField(SymbolV2Type, SnapshotIdField))
    ensures ParseSymbolV2(project + ":" + snapshot) == Err(MissingField(SymbolV2Type, QualifiedNameField))
    ensures ParseSymbolV2(project + ":" + (snapshot + ":" + hash)) == Err(MissingField(SymbolV2Type, DefnHashField))
  {
    SplitOnceAt(project, ':', snapshot);
    SplitOnceAt(project, ':', snapshot + ":" + hash);
    SplitOnceAt(snapshot, ':', hash);
  }

  // ---- a fixed number of fields ----

  /** The fields that the colons of a text separate. */
  predicate Fields(rest: string, parts: seq<string>) {
    parts != [] && (forall p :: p in parts ==> ':' !in p) && rest == JoinAll(parts, ':')
  }

  lemma FieldsSplit(rest: string, parts: seq<string>)
    ensures Fields(rest, parts) <==> parts == SplitAll(rest, ':')
  {
    if Fields(rest, parts) {
      SplitAllJoin(parts, ':');
    }
    JoinSplitAll(rest, ':');
  }

  lemma ProjectFileRefused(rest: string, parts: seq<string>)
    requires Fields(rest, parts)
    ensures Refusal(ParseProjectFile(rest))
         == if |parts| != 4 then Some(BadShape(ProjectFileType))
            else if parts[0] == "" then Some(EmptyField(ProjectFileType, ProjectIdField))
            else if parts[1] == "" then Some(EmptyField(ProjectFileType, RelPathHashField))
            else if parts[2] == "" then Some(EmptyField(ProjectFileType, ChunkHashField))
            else if !IsWord(parts[3]) then Some(NotNumeric(ProjectFileType, OccurrenceIdxField))
            else None
  {
    FieldsSplit(rest, parts);
  }

  lemma ProjectFileV2Refused(rest: string, parts: seq<string>)
    requires Fields(rest, parts)
    ensures Refusal(ParseProjectFileV2(rest))
         == if |parts| != 5 then Some(BadShape(ProjectFileV2Type))
            else if parts[0] == "" then Some(EmptyField(ProjectFileV2Type, ProjectIdField))
            else if parts[1] == "" then Some(EmptyField(ProjectFileV2Type, SnapshotIdField))
            else if parts[2] == "" then Some(EmptyField(ProjectFileV2Type, RelPathHashField))
            else if parts[3] == "" then Some(EmptyField(ProjectFileV2Type, ChunkHashField))
            else if !IsWord(parts[4]) then Some(NotNumeric(ProjectFileV2Type, OccurrenceIdxField))
            else None
  {
    FieldsSplit(rest, parts);
  }

  lemma CommitRefused(rest: string, parts: seq<string>)
    requires Fields(rest, parts)
    ensures Refusal(ParseCommit(rest))
         == if |parts| != 2 then Some(BadShape(CommitType))
            else if parts[0] == "" then Some(EmptyField(CommitType, RepoIdField))
            else if parts[1] == "" then Some(EmptyField(CommitType, ShaField))
            else None
  {
    FieldsSplit(rest, parts);
  }

  // ---- agents and artifacts ----

  lemma AgentRefused(name: string, version: string)
    requires ':' !in name && ':' !in version && '@' !in version
    ensures Refusal(ParseAgent(name + ['@', 'v'] + version))
         == if name == "" then Some(EmptyField(AgentType, NameField))
            else if !IsWord(version) then Some(NotNumeric(AgentType, VersionField))
            else None
  {
    RSplitPairAt(name, '@', 'v', version);
  }

  lemma AgentMalformed(rest: string)
    ensures ':' in rest ==> ParseAgent(rest) == Err(BadShape(AgentType))
    ensures ParseAgent("") == Err(EmptyField(AgentType, NameVersionField))
    ensures rest != "" && '@' !in rest ==> ParseAgent(rest) == Err(BadShape(AgentType))
  {
    if RSplitPair(rest, '@', 'v').Some? {
      var (name, version) := RSplitPair(rest, '@', 'v').value;
      assert rest[|name|] == '@';
    }
  }

  lemma ArtifactRefused(kind: string, name: string)
    requires '/' !in kind && '@' !in name
    ensures ParseArtifact(kind) == Err(MissingField(ArtifactType, NameField))
    ensures Refusal(ParseArtifact(kind + "/" + name))
         == if kind == "" then Some(EmptyField(ArtifactType, KindField))
            else if !ValidArtifactKind(kind) then Some(BadShape(ArtifactType))
            else if name == "" then Some(EmptyField(ArtifactType, NameField))
            else None
  {
    SplitOnceAt(kind, '/', name);
  }

  lemma ArtifactVersionRefused(kind: string, name: string, version: string)
    requires ValidArtifactKind(kind) && '@' !in version
    ensures Refusal(ParseArtifact(kind + "/" + (name + "@" + version)))
         == if name == "" then Some(EmptyField(ArtifactType, NameField))
            else if version == "" || version == "v" then Some(EmptyField(ArtifactType, VersionField))
            else None
  {
    KindHasNoSlash(kind);
    SplitOnceAt(kind, '/', name + "@" + version);
    RSplitOnceAt(name, '@', version);
  }
}
