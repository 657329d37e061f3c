/**
 * Entity references: nineteen kinds of `type:field:...` names, their parser and
 * their printer (src/entity_ref.rs).
 */
module EntityRefs {
  import opened Wrappers
  import opened Naturals
  import opened Text

  type u32 = n: nat | n <= U32_MAX
  type u64 = n: nat | n <= U64_MAX

  datatype EntityType =
    | KnowledgeType | TranscriptType | FileType | ProjectFileType | ProjectFileV2Type
    | SessionType | ThreadType | NoteType | SymbolType | SymbolV2Type | BrofileType
    | WhiteboardType | CommitType | TaskType | BashCallType | AgentType | PacketType
    | ArtifactType | RoadmapItemType

  const ALL_TYPES: seq<EntityType> := [
    KnowledgeType, TranscriptType, FileType, ProjectFileType, ProjectFileV2Type,
    SessionType, ThreadType, NoteType, SymbolType, SymbolV2Type, BrofileType,
    WhiteboardType, CommitType, TaskType, BashCallType, AgentType, PacketType,
    ArtifactType, RoadmapItemType
  ]

  function TypeName(t: EntityType): string {
    match t
    case KnowledgeType => "knowledge"
    case TranscriptType => "transcript"
    case FileType => "file"
    case ProjectFileType => "project_file"
    case ProjectFileV2Type => "project_file_v2"
    case SessionType => "session"
    case ThreadType => "thread"
    case NoteType => "note"
    case SymbolType => "symbol"
    case SymbolV2Type => "symbol_v2"
    case BrofileType => "brofile"
    case WhiteboardType => "whiteboard"
    case CommitType => "commit"
    case TaskType => "task"
    case BashCallType => "bash_call"
    case AgentType => "agent"
    case PacketType => "packet"
    case ArtifactType => "artifact"
    case RoadmapItemType => "roadmap_item"
  }

  datatype EntityRef =
    | Knowledge(id: string)
    | Transcript(provider: string, sessionId: string, lineOffset: u64, eventIdx: u32)
    | File(path: string)
    | ProjectFile(projectId: string, relPathHash: string, chunkHash: string, occurrenceIdx: u32)
    | ProjectFileV2(projectId: string, snapshotId: string, relPathHash: string,
                    chunkHash: string, occurrenceIdx: u32)
    | Session(provider: string, sessionId: string)
    | Thread(threadId: string)
    | Note(noteId: string)
    | Symbol(projectId: string, qualifiedName: string, defnHash: string)
    | SymbolV2(projectId: string, snapshotId: string, qualifiedName: string, defnHash: string)
    | Brofile(name: string)
    | Whiteboard(boardId: string)
    | Commit(repoId: string, sha: string)
    | Task(taskId: string)
    | BashCall(session: string, turn: u32)
    | Agent(name: string, agentVersion: u32)
    | Packet(selector: string)
    | Artifact(kind: string, name: string, version: Option<string>)
    | RoadmapItem(id: string)
  {
    function Type(): EntityType {
      match this
      case Knowledge(_) => KnowledgeType
      case Transcript(_, _, _, _) => TranscriptType
      case File(_) => FileType
      case ProjectFile(_, _, _, _) => ProjectFileType
      case ProjectFileV2(_, _, _, _, _) => ProjectFileV2Type
      case Session(_, _) => SessionType
      case Thread(_) => ThreadType
      case Note(_) => NoteType
      case Symbol(_, _, _) => SymbolType
      case SymbolV2(_, _, _, _) => SymbolV2Type
      case Brofile(_) => BrofileType
      case Whiteboard(_) => WhiteboardType
      case Commit(_, _) => CommitType
      case Task(_) => TaskType
      case BashCall(_, _) => BashCallType
      case Agent(_, _) => AgentType
      case Packet(_) => PacketType
      case Artifact(_, _, _) => ArtifactType
      case RoadmapItem(_) => RoadmapItemType
    }
  }

  /** The field an error message names. */
  datatype FieldName =
    | IdField | EventIdxField | LineOffsetField | SessionIdField | ProviderField
    | ProjectIdField | RelPathHashField | ChunkHashField | OccurrenceIdxField | SnapshotIdField
    | QualifiedNameField | DefnHashField | RepoIdField | ShaField | TurnField | SessionField
    | NameVersionField | NameField | VersionField | SelectorField | KindField | PathField

  datatype ParseError =
    | NoTypePrefix
    | UnknownType(prefix: string)
    | MissingField(ty: EntityType, field: FieldName)
    | EmptyField(ty: EntityType, field: FieldName)
    | NotNumeric(ty: EntityType, field: FieldName)
    | BadShape(ty: EntityType)

  datatype RenderError =
    | InvalidProvider(provider: string)
    | InvalidAgent(name: string, agentVersion: u32)

  // ---- the printer ----

  function CheckProvider(provider: string): Result<(), RenderError> {
    if provider == "" || ':' in provider then Err(InvalidProvider(provider)) else Ok(())
  }

  function TryRender(r: EntityRef): Result<string, RenderError> {
    match r
    case Knowledge(id) => Ok("knowledge:" + id)
    case Transcript(provider, sessionId, lineOffset, eventIdx) =>
      var _ :- CheckProvider(provider);
      Ok("transcript:" + provider + ":" + sessionId + ":" + ShowDecimal(lineOffset) + ":"
         + ShowDecimal(eventIdx))
    case File(path) => Ok("file:" + path)
    case ProjectFile(projectId, relPathHash, chunkHash, occurrenceIdx) =>
      Ok("project_file:" + projectId + ":" + relPathHash + ":" + chunkHash + ":"
         + ShowDecimal(occurrenceIdx))
    case ProjectFileV2(projectId, snapshotId, relPathHash, chunkHash, occurrenceIdx) =>
      Ok("project_file_v2:" + projectId + ":" + snapshotId + ":" + relPathHash + ":" + chunkHash
         + ":" + ShowDecimal(occurrenceIdx))
    case Session(provider, sessionId) =>
      var _ :- CheckProvider(provider);
      Ok("session:" + provider + ":" + sessionId)
    case Thread(threadId) => Ok("thread:" + threadId)
    case Note(noteId) => Ok("note:" + noteId)
    case Symbol(projectId, qualifiedName, defnHash) =>
      Ok("symbol:" + projectId + ":" + qualifiedName + ":" + defnHash)
    case SymbolV2(projectId, snapshotId, qualifiedName, defnHash) =>
      Ok("symbol_v2:" + projectId + ":" + snapshotId + ":" + qualifiedName + ":" + defnHash)
    case Brofile(name) => Ok("brofile:" + name)
    case Whiteboard(boardId) => Ok("whiteboard:" + boardId)
    case Commit(repoId, sha) => Ok("commit:" + repoId + ":" + sha)
    case Task(taskId) => Ok("task:" + taskId)
    case BashCall(session, turn) => Ok("bash_call:" + session + ":" + ShowDecimal(turn))
    case Agent(name, version) =>
      if name == "" || ':' in name || version == 0 then Err(InvalidAgent(name, version))
      else Ok("agent:" + name + "@v" + ShowDecimal(version))
    case Packet(selector) => Ok("packet:" + selector)
    case Artifact(kind, name, version) =>
      (match version
       case Some(v) => Ok("artifact:" + kind + "/" + name + "@" + v)
       case None => Ok("artifact:" + kind + "/" + name))
    case RoadmapItem(id) => Ok("roadmap_item:" + id)
  }

  /** `Display`: never fails, and marks a reference that has no rendering. */
  function Display(r: EntityRef): string {
    match TryRender(r)
    case Ok(rendered) => rendered
    case Err(e) =>
      "<invalid entity-ref kind=" + TypeName(r.Type())
      + (match e
         case InvalidProvider(p) => " field=provider value=" + p
         case InvalidAgent(n, v) => " field=name/version value=" + n + "@v" + ShowDecimal(v))
      + ">"
  }

  // ---- the parser ----

  /** `EntityType::from_prefix`: the first type of that name, searching from `i`. */
  function FromPrefix(prefix: string, i: nat := 0): (t: Option<EntityType>)
    ensures t.Some? ==> TypeName(t.value) == prefix
    ensures t.None? ==> forall j :: i <= j < |ALL_TYPES| ==> TypeName(ALL_TYPES[j]) != prefix
    decreases |ALL_TYPES| - i
  {
    if i >= |ALL_TYPES| then None
    else if TypeName(ALL_TYPES[i]) == prefix then Some(ALL_TYPES[i])
    else FromPrefix(prefix, i + 1)
  }

  function NonEmpty(value: string, ty: EntityType, field: FieldName): Result<string, ParseError> {
    if value == "" then Err(EmptyField(ty, field)) else Ok(value)
  }

  function SplitFirst(rest: string, ty: EntityType, missing: FieldName)
    : Result<(string, string), ParseError>
  {
    match SplitOnce(rest, ':')
    case Some(pair) => Ok(pair)
    case None => Err(MissingField(ty, missing))
  }

  function SplitLast(rest: string, ty: EntityType, missing: FieldName)
    : Result<(string, string), ParseError>
  {
    match RSplitOnce(rest, ':')
    case Some(pair) => Ok(pair)
    case None => Err(MissingField(ty, missing))
  }

  function ExactParts(rest: string, ty: EntityType, expected: nat)
    : (r: Result<seq<string>, ParseError>)
    ensures r.Ok? ==> |r.value| == expected
  {
    var parts := SplitAll(rest, ':');
    if |parts| == expected then Ok(parts) else Err(BadShape(ty))
  }

  function ParseU32(value: string, ty: EntityType, field: FieldName): Result<u32, ParseError> {
    match ParseDecimal(value, U32_MAX)
    case Some(n) => Ok(n)
    case None => Err(NotNumeric(ty, field))
  }

  function ParseU64(value: string, ty: EntityType, field: FieldName): Result<u64, ParseError> {
    match ParseDecimal(value, U64_MAX)
    case Some(n) => Ok(n)
    case None => Err(NotNumeric(ty, field))
  }

  /** `parse_single`: one colon-free, non-empty field. */
  function ParseSingle(rest: string, ty: EntityType): Result<string, ParseError> {
    if ':' in rest then Err(BadShape(ty)) else NonEmpty(rest, ty, IdField)
  }

  function ParseTranscript(rest: string): Result<EntityRef, ParseError> {
    var (head, eventText) :- SplitLast(rest, TranscriptType, EventIdxField);
    var (head, lineText) :- SplitLast(head, TranscriptType, LineOffsetField);
    var (provider, sessionId) :- SplitFirst(head, TranscriptType, SessionIdField);
    var provider :- NonEmpty(provider, TranscriptType, ProviderField);
    var sessionId :- NonEmpty(sessionId, TranscriptType, SessionIdField);
    var lineOffset :- ParseU64(lineText, TranscriptType, LineOffsetField);
    var eventIdx :- ParseU32(eventText, TranscriptType, EventIdxField);
    Ok(Transcript(provider, sessionId, lineOffset, eventIdx))
  }

  function ParseProjectFile(rest: string): Result<EntityRef, ParseError> {
    var parts :- ExactParts(rest, ProjectFileType, 4);
    var projectId :- NonEmpty(parts[0], ProjectFileType, ProjectIdField);
    var relPathHash :- NonEmpty(parts[1], ProjectFileType, RelPathHashField);
    var chunkHash :- NonEmpty(parts[2], ProjectFileType, ChunkHashField);
    var occurrenceIdx :- ParseU32(parts[3], ProjectFileType, OccurrenceIdxField);
    Ok(ProjectFile(projectId, relPathHash, chunkHash, occurrenceIdx))
  }

  function ParseProjectFileV2(rest: string): Result<EntityRef, ParseError> {
    var parts :- ExactParts(rest, ProjectFileV2Type, 5);
    var projectId :- NonEmpty(parts[0], ProjectFileV2Type, ProjectIdField);
    var snapshotId :- NonEmpty(parts[1], ProjectFileV2Type, SnapshotIdField);
    var relPathHash :- NonEmpty(parts[2], ProjectFileV2Type, RelPathHashField);
    var chunkHash :- NonEmpty(parts[3], ProjectFileV2Type, ChunkHashField);
    var occurrenceIdx :- ParseU32(parts[4], ProjectFileV2Type, OccurrenceIdxField);
    Ok(ProjectFileV2(projectId, snapshotId, relPathHash, chunkHash, occurrenceIdx))
  }

  function ParseSession(rest: string): Result<EntityRef, ParseError> {
    var (provider, sessionId) :- SplitFirst(rest, SessionType, SessionIdField);
    var provider :- NonEmpty(provider, SessionType, ProviderField);
    var sessionId :- NonEmpty(sessionId, SessionType, SessionIdField);
    Ok(Session(provider, sessionId))
  }

  function ParseSymbol(rest: string): Result<EntityRef, ParseError> {
    var (projectId, tail) :- SplitFirst(rest, SymbolType, QualifiedNameField);
    var (qualifiedName, defnHash) :- SplitLast(tail, SymbolType, DefnHashField);
    var projectId :- NonEmpty(projectId, SymbolType, ProjectIdField);
    var qualifiedName :- NonEmpty(qualifiedName, SymbolType, QualifiedNameField);
    var defnHash :- NonEmpty(defnHash, SymbolType, DefnHashField);
    Ok(Symbol(projectId, qualifiedName, defnHash))
  }

  function ParseSymbolV2(rest: string): Result<EntityRef, ParseError> {
    var (projectId, tail) :- SplitFirst(rest, SymbolV2Type, SnapshotIdField);
    var (snapshotId, tail) :- SplitFirst(tail, SymbolV2Type, QualifiedNameField);
    var (qualifiedName, defnHash) :- SplitLast(tail, SymbolV2Type, DefnHashField);
    var projectId :- NonEmpty(projectId, SymbolV2Type, ProjectIdField);
    var snapshotId :- NonEmpty(snapshotId, SymbolV2Type, SnapshotIdField);
    var qualifiedName :- NonEmpty(qualifiedName, SymbolV2Type, QualifiedNameField);
    var defnHash :- NonEmpty(defnHash, SymbolV2Type, DefnHashField);
    Ok(SymbolV2(projectId, snapshotId, qualifiedName, defnHash))
  }

  function ParseCommit(rest: string): Result<EntityRef, ParseError> {
    var parts :- ExactParts(rest, CommitType, 2);
    var repoId :- NonEmpty(parts[0], CommitType, RepoIdField);
    var sha :- NonEmpty(parts[1], CommitType, ShaField);
    Ok(Commit(repoId, sha))
  }

  function ParseBashCall(rest: string): Result<EntityRef, ParseError> {
    var (session, turnText) :- SplitLast(rest, BashCallType, TurnField);
    var session :- NonEmpty(session, BashCallType, SessionField);
    var turn :- ParseU32(turnText, BashCallType, TurnField);
    Ok(BashCall(session, turn))
  }

  function ParseAgent(rest: string): Result<EntityRef, ParseError> {
    if ':' in rest then Err(BadShape(AgentType))
    else
      var value :- NonEmpty(rest, AgentType, NameVersionField);
      match RSplitPair(value, '@', 'v')
      case None => Err(BadShape(AgentType))
      case Some((name, versionText)) =>
        var name :- NonEmpty(name, AgentType, NameField);
        var version :- ParseU32(versionText, AgentType, VersionField);
        Ok(Agent(name, version))
  }

  function ParsePacket(rest: string): Result<EntityRef, ParseError> {
    var selector :- NonEmpty(rest, PacketType, SelectorField);
    if "domain:" <= selector || "packet-" <= selector then Ok(Packet(selector))
    else Err(BadShape(PacketType))
  }

  predicate ValidArtifactKind(kind: string) {
    kind in {"workflow", "packet", "brofile", "agent", "atom", "team", "cron"}
  }

  function StripV(version: string): string {
    if version != "" && version[0] == 'v' then version[1..] else version
  }

  function ParseArtifact(rest: string): Result<EntityRef, ParseError> {
    match SplitOnce(rest, '/')
    case None => Err(MissingField(ArtifactType, NameField))
    case Some((kind, tail)) =>
      var kind :- NonEmpty(kind, ArtifactType, KindField);
      if !ValidArtifactKind(kind) then Err(BadShape(ArtifactType))
      else
        match RSplitOnce(tail, '@')
        case Some((name, versionText)) =>
          var name :- NonEmpty(name, ArtifactType, NameField);
          var version :- NonEmpty(StripV(versionText), ArtifactType, VersionField);
          Ok(Artifact(kind, name, Some(version)))
        case None =>
          var name :- NonEmpty(tail, ArtifactType, NameField);
          Ok(Artifact(kind, name, None))
  }

  /** The part of `parse` after the type prefix has been recognised. */
  function ParseBody(ty: EntityType, rest: string): Result<EntityRef, ParseError> {
    match ty
    case KnowledgeType => var id :- ParseSingle(rest, ty); Ok(Knowledge(id))
    case TranscriptType => ParseTranscript(rest)
    case FileType => var path :- NonEmpty(rest, ty, PathField); Ok(File(path))
    case ProjectFileType => ParseProjectFile(rest)
    case ProjectFileV2Type => ParseProjectFileV2(rest)
    case SessionType => ParseSession(rest)
    case ThreadType => var id :- ParseSingle(rest, ty); Ok(Thread(id))
    case NoteType => var id :- ParseSingle(rest, ty); Ok(Note(id))
    case SymbolType => ParseSymbol(rest)
    case SymbolV2Type => ParseSymbolV2(rest)
    case BrofileType => var name :- ParseSingle(rest, ty); Ok(Brofile(name))
    case WhiteboardType => var id :- ParseSingle(rest, ty); Ok(Whiteboard(id))
    case CommitType => ParseCommit(rest)
    case TaskType => var id :- ParseSingle(rest, ty); Ok(Task(id))
    case BashCallType => ParseBashCall(rest)
    case AgentType => ParseAgent(rest)
    case PacketType => ParsePacket(rest)
    case ArtifactType => ParseArtifact(rest)
    case RoadmapItemType => var id :- ParseSingle(rest, ty); Ok(RoadmapItem(id))
  }

  function Parse(input: string): Result<EntityRef, ParseError> {
    match SplitOnce(Trim(input), ':')
    case None => Err(NoTypePrefix)
    case Some((prefix, rest)) =>
      match FromPrefix(prefix)
      case None => Err(UnknownType(prefix))
      case Some(ty) => ParseBody(ty, rest)
  }
}
