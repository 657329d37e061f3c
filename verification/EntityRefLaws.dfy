/**
 * The parser and the printer of entity references undo each other, on exactly
 * the references described by `WellFormed`.
 */
module EntityRefLaws {
  import opened Wrappers
  import opened Naturals
  import opened Text
  import opened EntityRefs

  predicate Plain(s: string) {
    s != "" && ':' !in s
  }

  predicate Closing(s: string) {
    s != "" && NoTrailingSpace(s)
  }

  /** Every reference the parser can return. */
  predicate Accepted(r: EntityRef) {
    match r
    case Knowledge(id) => Plain(id) && Closing(id)
    case Transcript(provider, sessionId, _, _) => Plain(provider) && sessionId != ""
    case File(path) => Closing(path)
    case ProjectFile(p, h, c, _) => Plain(p) && Plain(h) && Plain(c)
    case ProjectFileV2(p, s, h, c, _) => Plain(p) && Plain(s) && Plain(h) && Plain(c)
    case Session(provider, sessionId) => Plain(provider) && Closing(sessionId)
    case Thread(id) => Plain(id) && Closing(id)
    case Note(id) => Plain(id) && Closing(id)
    case Symbol(p, q, d) => Plain(p) && q != "" && Plain(d) && Closing(d)
    case SymbolV2(p, s, q, d) => Plain(p) && Plain(s) && q != "" && Plain(d) && Closing(d)
    case Brofile(name) => Plain(name) && Closing(name)
    case Whiteboard(id) => Plain(id) && Closing(id)
    case Commit(repo, sha) => Plain(repo) && Plain(sha) && Closing(sha)
    case Task(id) => Plain(id) && Closing(id)
    case BashCall(session, _) => session != ""
    case Agent(name, _) => Plain(name)
    case Packet(sel) => Closing(sel) && ("domain:" <= sel || "packet-" <= sel)
    case Artifact(kind, name, Some(v)) =>
      ValidArtifactKind(kind) && name != "" && Closing(v) && '@' !in v
    case Artifact(kind, name, None) =>
      ValidArtifactKind(kind) && Closing(name) && '@' !in name
    case RoadmapItem(id) => Plain(id) && Closing(id)
  }

  /** Two accepted families do not survive printing. */
  predicate LeadingV(r: EntityRef) {
    r.Artifact? && r.version.Some? && r.version.value != "" && r.version.value[0] == 'v'
  }

  predicate AgentZero(r: EntityRef) {
    r.Agent? && r.agentVersion == 0
  }

  predicate WellFormed(r: EntityRef) {
    Accepted(r) && !LeadingV(r) && !AgentZero(r)
  }

  // ---- the text after the type prefix ----

  function Body(r: EntityRef): string {
    match r
    case Knowledge(id) => id
    case Transcript(p, s, l, e) => p + ":" + s + ":" + ShowDecimal(l) + ":" + ShowDecimal(e)
    case File(path) => path
    case ProjectFile(p, h, c, o) => JoinAll([p, h, c, ShowDecimal(o)], ':')
    case ProjectFileV2(p, s, h, c, o) => JoinAll([p, s, h, c, ShowDecimal(o)], ':')
    case Session(p, s) => p + ":" + s
    case Thread(id) => id
    case Note(id) => id
    case Symbol(p, q, d) => p + ":" + q + ":" + d
    case SymbolV2(p, s, q, d) => p + ":" + s + ":" + q + ":" + d
    case Brofile(name) => name
    case Whiteboard(id) => id
    case Commit(repo, sha) => JoinAll([repo, sha], ':')
    case Task(id) => id
    case BashCall(s, t) => s + ":" + ShowDecimal(t)
    case Agent(name, v) => name + "@v" + ShowDecimal(v)
    case Packet(sel) => sel
    case Artifact(k, n, Some(v)) => k + "/" + n + "@" + v
    case Artifact(k, n, None) => k + "/" + n
    case RoadmapItem(id) => id
  }

  lemma Join2(a: string, b: string)
    ensures JoinAll([a, b], ':') == a + ":" + b
  {
    assert [a, b][1..] == [b];
  }

  lemma Join4(a: string, b: string, c: string, d: string)
    ensures JoinAll([a, b, c, d], ':') == a + ":" + b + ":" + c + ":" + d
  {
    assert [a, b, c, d][1..] == [b, c, d];
    assert [b, c, d][1..] == [c, d];
    Join2(c, d);
    assert a + ":" + (b + ":" + (c + ":" + d)) == a + ":" + b + ":" + c + ":" + d;
  }

  lemma Join5(a: string, b: string, c: string, d: string, e: string)
    ensures JoinAll([a, b, c, d, e], ':') == a + ":" + b + ":" + c + ":" + d + ":" + e
  {
    assert [a, b, c, d, e][1..] == [b, c, d, e];
    Join4(b, c, d, e);
    assert a + ":" + (b + ":" + c + ":" + d + ":" + e) == a + ":" + b + ":" + c + ":" + d + ":" + e;
  }

  lemma TypePrefixes()
    ensures "knowledge:" == TypeName(KnowledgeType) + ":"
    ensures "transcript:" == TypeName(TranscriptType) + ":"
    ensures "file:" == TypeName(FileType) + ":"
    ensures "project_file:" == TypeName(ProjectFileType) + ":"
    ensures "project_file_v2:" == TypeName(ProjectFileV2Type) + ":"
    ensures "session:" == TypeName(SessionType) + ":"
    ensures "thread:" == TypeName(ThreadType) + ":"
    ensures "note:" == TypeName(NoteType) + ":"
    ensures "symbol:" == TypeName(SymbolType) + ":"
    ensures "symbol_v2:" == TypeName(SymbolV2Type) + ":"
    ensures "brofile:" == TypeName(BrofileType) + ":"
    ensures "whiteboard:" == TypeName(WhiteboardType) + ":"
    ensures "commit:" == TypeName(CommitType) + ":"
    ensures "task:" == TypeName(TaskType) + ":"
    ensures "bash_call:" == TypeName(BashCallType) + ":"
    ensures "agent:" == TypeName(AgentType) + ":"
    ensures "packet:" == TypeName(PacketType) + ":"
    ensures "artifact:" == TypeName(ArtifactType) + ":"
    ensures "roadmap_item:" == TypeName(RoadmapItemType) + ":"
  {
  }

  lemma Regroup3(l: string, a: string, b: string, c: string)
    ensures l + a + b + c == l + (a + b + c)
  {
  }

  lemma Regroup5(l: string, a: string, b: string, c: string, d: string, e: string)
    ensures l + a + b + c + d + e == l + (a + b + c + d + e)
  {
  }

  lemma Regroup7(l: string, a: string, b: string, c: string, d: string, e: string, f: string, g: string)
    ensures l + a + b + c + d + e + f + g == l + (a + b + c + d + e + f + g)
  {
    Regroup5(l, a, b, c, d, e);
  }

  lemma Regroup9(l: string, a: string, b: string, c: string, d: string, e: string, f: string,
                 g: string, h: string, i: string)
    ensures l + a + b + c + d + e + f + g + h + i == l + (a + b + c + d + e + f + g + h + i)
  {
    Regroup7(l, a, b, c, d, e, f, g);
  }

  predicate OneField(r: EntityRef) {
    || r.Knowledge? || r.File? || r.Thread? || r.Note? || r.Brofile? || r.Whiteboard?
    || r.Task? || r.Packet? || r.RoadmapItem?
  }

  lemma RenderShapeOneField(r: EntityRef)
    requires OneField(r)
    ensures TryRender(r) == Ok(TypeName(r.Type()) + ":" + Body(r))
  {
    TypePrefixes();
  }

  /** A rendering is the type's name, a colon, and the body. */
  lemma RenderShape(r: EntityRef)
    requires TryRender(r).Ok?
    ensures TryRender(r).value == TypeName(r.Type()) + ":" + Body(r)
  {
    if OneField(r) {
      RenderShapeOneField(r);
    } else {
      TypePrefixes();
      match r
      case Transcript(p, s, l, e) =>
        Regroup7("transcript:", p, ":", s, ":", ShowDecimal(l), ":", ShowDecimal(e));
      case ProjectFile(p, h, c, o) =>
        Join4(p, h, c, ShowDecimal(o));
        Regroup7("project_file:", p, ":", h, ":", c, ":", ShowDecimal(o));
      case ProjectFileV2(p, s, h, c, o) =>
        Join5(p, s, h, c, ShowDecimal(o));
        Regroup9("project_file_v2:", p, ":", s, ":", h, ":", c, ":", ShowDecimal(o));
      case Session(p, s) => Regroup3("session:", p, ":", s);
      case Symbol(p, q, d) => Regroup5("symbol:", p, ":", q, ":", d);
      case SymbolV2(p, s, q, d) => Regroup7("symbol_v2:", p, ":", s, ":", q, ":", d);
      case Commit(repo, sha) =>
        Join2(repo, sha);
        Regroup3("commit:", repo, ":", sha);
      case BashCall(s, t) => Regroup3("bash_call:", s, ":", ShowDecimal(t));
      case Agent(name, v) => Regroup3("agent:", name, "@v", ShowDecimal(v));
      case Artifact(k, n, Some(v)) => Regroup5("artifact:", k, "/", n, "@", v);
      case Artifact(k, n, None) => Regroup3("artifact:", k, "/", n);
    }
  }

  // ---- dispatch on the type prefix ----

  /** Length and first letter already tell the nineteen type names apart. */
  lemma TypeNameInjective(t: EntityType, u: EntityType)
    requires TypeName(t) == TypeName(u)
    ensures t == u
  {
    assert |TypeName(t)| == |TypeName(u)| && TypeName(t)[0] == TypeName(u)[0];
  }

  lemma TypeNamePlain(t: EntityType)
    ensures TypeName(t) != "" && !IsWhitespace(TypeName(t)[0]) && ':' !in TypeName(t)
  {
  }

  function TypeRank(t: EntityType): (k: nat)
    ensures k < |ALL_TYPES| && ALL_TYPES[k] == t
  {
    match t
    case KnowledgeType => 0
    case TranscriptType => 1
    case FileType => 2
    case ProjectFileType => 3
    case ProjectFileV2Type => 4
    case SessionType => 5
    case ThreadType => 6
    case NoteType => 7
    case SymbolType => 8
    case SymbolV2Type => 9
    case BrofileType => 10
    case WhiteboardType => 11
    case CommitType => 12
    case TaskType => 13
    case BashCallType => 14
    case AgentType => 15
    case PacketType => 16
    case ArtifactType => 17
    case RoadmapItemType => 18
  }

  lemma FromPrefixFinds(t: EntityType)
    ensures FromPrefix(TypeName(t)) == Some(t)
  {
    assert ALL_TYPES[TypeRank(t)] == t;
    TypeNameInjective(FromPrefix(TypeName(t)).value, t);
  }

  lemma PrefixSplit(t: EntityType, rest: string)
    requires Closing(rest)
    ensures SplitOnce(Trim(TypeName(t) + ":" + rest), ':') == Some((TypeName(t), rest))
  {
    var s := TypeName(t) + ":" + rest;
    TypeNamePlain(t);
    assert s[0] == TypeName(t)[0];
    assert s[|s| - 1] == rest[|rest| - 1];
    SplitOnceAt(TypeName(t), ':', rest);
  }

  lemma ParseDispatch(t: EntityType, rest: string)
    requires Closing(rest)
    ensures Parse(TypeName(t) + ":" + rest) == ParseBody(t, rest)
  {
    PrefixSplit(t, rest);
    FromPrefixFinds(t);
  }

  /** The first colon ends the name of the type; without one there is none. */
  lemma UntypedRejected(input: string, prefix: string)
    ensures Parse(input) == Err(NoTypePrefix) <==> ':' !in Trim(input)
    ensures Parse(input) == Err(UnknownType(prefix))
            <==> ':' !in prefix && prefix + ":" <= Trim(input) && forall t: EntityType :: TypeName(t) != prefix
  {
    var text := Trim(input);
    ColonBehind(prefix, text);
    match SplitOnce(text, ':')
    case None =>
    case Some((before, rest)) =>
      if ':' !in prefix && prefix + ":" <= text {
        assert text == prefix + [':'] + text[|prefix| + 1..];
        SplitOnceAt(prefix, ':', text[|prefix| + 1..]);
      }
      KnownPrefix(before);
      if FromPrefix(before).Some? {
        BodyErrors(FromPrefix(before).value, rest);
      }
  }

  lemma ColonBehind(prefix: string, text: string)
    ensures prefix + ":" <= text ==> ':' in text
  {
    assert (prefix + ":")[|prefix|] == ':';
  }

  lemma KnownPrefix(prefix: string)
    ensures FromPrefix(prefix).None? <==> forall t: EntityType :: TypeName(t) != prefix
  {
    forall t: EntityType | TypeName(t) == prefix
      ensures FromPrefix(prefix).Some?
    {
      FromPrefixFinds(t);
    }
  }

  /** An error behind the type names it. */
  predicate Blames(r: Result<EntityRef, ParseError>, t: EntityType) {
    r.Err? ==> !r.error.NoTypePrefix? && !r.error.UnknownType? && r.error.ty == t
  }

  lemma TranscriptErrors(rest: string)
    ensures Blames(ParseTranscript(rest), TranscriptType)
  {
  }

  lemma ProjectFileErrors(rest: string)
    ensures Blames(ParseProjectFile(rest), ProjectFileType)
  {
  }

  lemma ProjectFileV2Errors(rest: string)
    ensures Blames(ParseProjectFileV2(rest), ProjectFileV2Type)
  {
  }

  lemma SessionErrors(rest: string)
    ensures Blames(ParseSession(rest), SessionType)
  {
  }

  lemma SymbolErrors(rest: string)
    ensures Blames(ParseSymbol(rest), SymbolType)
  {
  }

  lemma SymbolV2Errors(rest: string)
    ensures Blames(ParseSymbolV2(rest), SymbolV2Type)
  {
  }

  lemma CommitErrors(rest: string)
    ensures Blames(ParseCommit(rest), CommitType)
  {
  }

  lemma BashCallErrors(rest: string)
    ensures Blames(ParseBashCall(rest), BashCallType)
  {
  }

  lemma AgentErrors(rest: string)
    ensures Blames(ParseAgent(rest), AgentType)
  {
  }

  lemma PacketErrors(rest: string)
    ensures Blames(ParsePacket(rest), PacketType)
  {
  }

  lemma ArtifactErrors(rest: string)
    ensures Blames(ParseArtifact(rest), ArtifactType)
  {
  }

  lemma BodyErrors(t: EntityType, rest: string)
    ensures Blames(ParseBody(t, rest), t)
  {
    match t
    case TranscriptType => TranscriptErrors(rest);
    case ProjectFileType => ProjectFileErrors(rest);
    case ProjectFileV2Type => ProjectFileV2Errors(rest);
    case SessionType => SessionErrors(rest);
    case SymbolType => SymbolErrors(rest);
    case SymbolV2Type => SymbolV2Errors(rest);
    case CommitType => CommitErrors(rest);
    case BashCallType => BashCallErrors(rest);
    case AgentType => AgentErrors(rest);
    case PacketType => PacketErrors(rest);
    case ArtifactType => ArtifactErrors(rest);
    case _ =>
  }

  // ---- printing, then parsing ----

  lemma ParseBodyDispatch(ty: EntityType, rest: string)
    ensures ty.TranscriptType? ==> ParseBody(ty, rest) == ParseTranscript(rest)
    ensures ty.ProjectFileType? ==> ParseBody(ty, rest) == ParseProjectFile(rest)
    ensures ty.ProjectFileV2Type? ==> ParseBody(ty, rest) == ParseProjectFileV2(rest)
    ensures ty.SessionType? ==> ParseBody(ty, rest) == ParseSession(rest)
    ensures ty.SymbolType? ==> ParseBody(ty, rest) == ParseSymbol(rest)
    ensures ty.SymbolV2Type? ==> ParseBody(ty, rest) == ParseSymbolV2(rest)
    ensures ty.CommitType? ==> ParseBody(ty, rest) == ParseCommit(rest)
    ensures ty.BashCallType? ==> ParseBody(ty, rest) == ParseBashCall(rest)
    ensures ty.AgentType? ==> ParseBody(ty, rest) == ParseAgent(rest)
    ensures ty.ArtifactType? ==> ParseBody(ty, rest) == ParseArtifact(rest)
  {
    match ty
    case TranscriptType | ProjectFileType | ProjectFileV2Type | SessionType | SymbolType =>
    case SymbolV2Type | CommitType | BashCallType | AgentType | ArtifactType =>
    case _ =>
  }

  lemma TranscriptRoundTrip(body: string, p: string, s: string, l: u64, e: u32)
    requires body == p + ":" + s + ":" + ShowDecimal(l) + ":" + ShowDecimal(e)
    requires Plain(p) && s != ""
    ensures ParseBody(TranscriptType, body) == Ok(Transcript(p, s, l, e))
  {
    var lt, et := ShowDecimal(l), ShowDecimal(e);
    DigitsAvoid(lt);
    DigitsAvoid(et);
    RSplitOnceAt(p + ":" + s + ":" + lt, ':', et);
    RSplitOnceAt(p + ":" + s, ':', lt);
    SplitOnceAt(p, ':', s);
    ParseShowDecimal(l, U64_MAX);
    ParseShowDecimal(e, U32_MAX);
    ParseBodyDispatch(TranscriptType, body);
  }

  lemma ProjectFileRoundTrip(body: string, p: string, h: string, c: string, o: u32)
    requires body == JoinAll([p, h, c, ShowDecimal(o)], ':')
    requires Plain(p) && Plain(h) && Plain(c)
    ensures ParseBody(ProjectFileType, body) == Ok(ProjectFile(p, h, c, o))
  {
    DigitsAvoid(ShowDecimal(o));
    SplitAllJoin([p, h, c, ShowDecimal(o)], ':');
    ParseShowDecimal(o, U32_MAX);
    ParseBodyDispatch(ProjectFileType, body);
  }

  lemma ProjectFileV2RoundTrip(body: string, p: string, s: string, h: string, c: string, o: u32)
    requires body == JoinAll([p, s, h, c, ShowDecimal(o)], ':')
    requires Plain(p) && Plain(s) && Plain(h) && Plain(c)
    ensures ParseBody(ProjectFileV2Type, body) == Ok(ProjectFileV2(p, s, h, c, o))
  {
    DigitsAvoid(ShowDecimal(o));
    SplitAllJoin([p, s, h, c, ShowDecimal(o)], ':');
    ParseShowDecimal(o, U32_MAX);
    ParseBodyDispatch(ProjectFileV2Type, body);
  }

  lemma SessionRoundTrip(body: string, p: string, s: string)
    requires body == p + ":" + s
    requires Plain(p) && s != ""
    ensures ParseBody(SessionType, body) == Ok(Session(p, s))
  {
    SplitOnceAt(p, ':', s);
    ParseBodyDispatch(SessionType, body);
  }

  lemma CommitRoundTrip(body: string, repo: string, sha: string)
    requires body == JoinAll([repo, sha], ':')
    requires Plain(repo) && Plain(sha)
    ensures ParseBody(CommitType, body) == Ok(Commit(repo, sha))
  {
    SplitAllJoin([repo, sha], ':');
    ParseBodyDispatch(CommitType, body);
  }

  lemma BashCallRoundTrip(body: string, s: string, t: u32)
    requires body == s + ":" + ShowDecimal(t)
    requires s != ""
    ensures ParseBody(BashCallType, body) == Ok(BashCall(s, t))
  {
    DigitsAvoid(ShowDecimal(t));
    RSplitOnceAt(s, ':', ShowDecimal(t));
    ParseShowDecimal(t, U32_MAX);
    ParseBodyDispatch(BashCallType, body);
  }

  lemma SymbolRoundTrip(body: string, p: string, q: string, d: string)
    requires body == p + ":" + q + ":" + d
    requires Plain(p) && q != "" && Plain(d)
    ensures ParseBody(SymbolType, body) == Ok(Symbol(p, q, d))
  {
    assert body == p + [':'] + (q + ":" + d);
    SplitOnceAt(p, ':', q + ":" + d);
    RSplitOnceAt(q, ':', d);
    ParseBodyDispatch(SymbolType, body);
  }

  lemma SymbolV2RoundTrip(body: string, p: string, s: string, q: string, d: string)
    requires body == p + ":" + s + ":" + q + ":" + d
    requires Plain(p) && Plain(s) && q != "" && Plain(d)
    ensures ParseBody(SymbolV2Type, body) == Ok(SymbolV2(p, s, q, d))
  {
    assert body == p + [':'] + (s + ":" + (q + ":" + d));
    SplitOnceAt(p, ':', s + ":" + (q + ":" + d));
    SplitOnceAt(s, ':', q + ":" + d);
    RSplitOnceAt(q, ':', d);
    ParseBodyDispatch(SymbolV2Type, body);
  }

  lemma AgentRoundTrip(body: string, name: string, v: u32)
    requires body == name + "@v" + ShowDecimal(v)
    requires Plain(name)
    ensures ParseBody(AgentType, body) == Ok(Agent(name, v))
  {
    DigitsAvoid(ShowDecimal(v));
    RSplitPairAt(name, '@', 'v', ShowDecimal(v));
    assert body == name + ['@', 'v'] + ShowDecimal(v);
    assert ':' !in body;
    ParseShowDecimal(v, U32_MAX);
    ParseBodyDispatch(AgentType, body);
  }

  lemma KindHasNoSlash(kind: string)
    requires ValidArtifactKind(kind)
    ensures kind != "" && '/' !in kind
  {
  }

  /** What the parser makes of a printed artifact, leading `v` included. */
  lemma ArtifactVersionedBody(body: string, k: string, n: string, v: string)
    requires body == k + "/" + n + "@" + v
    requires ValidArtifactKind(k) && n != "" && '@' !in v && StripV(v) != ""
    ensures ParseBody(ArtifactType, body) == Ok(Artifact(k, n, Some(StripV(v))))
  {
    KindHasNoSlash(k);
    assert body == k + ['/'] + (n + "@" + v);
    SplitOnceAt(k, '/', n + "@" + v);
    RSplitOnceAt(n, '@', v);
    ParseBodyDispatch(ArtifactType, body);
  }

  lemma ArtifactPlainBody(body: string, k: string, n: string)
    requires body == k + "/" + n
    requires ValidArtifactKind(k) && n != "" && '@' !in n
    ensures ParseBody(ArtifactType, body) == Ok(Artifact(k, n, None))
  {
    KindHasNoSlash(k);
    SplitOnceAt(k, '/', n);
    ParseBodyDispatch(ArtifactType, body);
  }

  lemma OneFieldRoundTrip(r: EntityRef)
    requires OneField(r) && WellFormed(r)
    ensures ParseBody(r.Type(), Body(r)) == Ok(r)
  {
  }

  lemma PathLikeRoundTrip(r: EntityRef)
    requires r.ProjectFile? || r.ProjectFileV2? || r.Commit? || r.Symbol? || r.SymbolV2?
    requires WellFormed(r)
    ensures ParseBody(r.Type(), Body(r)) == Ok(r)
  {
    var body := Body(r);
    match r
    case ProjectFile(p, h, c, o) => ProjectFileRoundTrip(body, p, h, c, o);
    case ProjectFileV2(p, s, h, c, o) => ProjectFileV2RoundTrip(body, p, s, h, c, o);
    case Symbol(p, q, d) => SymbolRoundTrip(body, p, q, d);
    case SymbolV2(p, s, q, d) => SymbolV2RoundTrip(body, p, s, q, d);
    case Commit(repo, sha) => CommitRoundTrip(body, repo, sha);
  }

  lemma BodyRoundTrip(r: EntityRef)
    requires WellFormed(r)
    ensures ParseBody(r.Type(), Body(r)) == Ok(r)
  {
    var body := Body(r);
    match r
    case Transcript(p, s, l, e) => TranscriptRoundTrip(body, p, s, l, e);
    case Session(p, s) => SessionRoundTrip(body, p, s);
    case BashCall(s, t) => BashCallRoundTrip(body, s, t);
    case Agent(name, v) => AgentRoundTrip(body, name, v);
    case Artifact(k, n, Some(v)) => ArtifactVersionedBody(body, k, n, v);
    case Artifact(k, n, None) => ArtifactPlainBody(body, k, n);
    case _ =>
      if OneField(r) {
        OneFieldRoundTrip(r);
      } else {
        PathLikeRoundTrip(r);
      }
  }

  lemma EndsWith(prefix: string, tail: string)
    requires Closing(tail)
    ensures Closing(prefix + tail)
  {
    assert (prefix + tail)[|prefix + tail| - 1] == tail[|tail| - 1];
  }

  lemma BodyClosing(r: EntityRef)
    requires Accepted(r)
    ensures Closing(Body(r))
  {
    match r
    case Transcript(p, s, l, e) =>
      DigitsAvoid(ShowDecimal(e));
      EndsWith(p + ":" + s + ":" + ShowDecimal(l) + ":", ShowDecimal(e));
    case ProjectFile(p, h, c, o) =>
      DigitsAvoid(ShowDecimal(o));
      Join4(p, h, c, ShowDecimal(o));
      EndsWith(p + ":" + h + ":" + c + ":", ShowDecimal(o));
    case ProjectFileV2(p, s, h, c, o) =>
      DigitsAvoid(ShowDecimal(o));
      Join5(p, s, h, c, ShowDecimal(o));
      EndsWith(p + ":" + s + ":" + h + ":" + c + ":", ShowDecimal(o));
    case Session(p, s) => EndsWith(p + ":", s);
    case Symbol(p, q, d) => EndsWith(p + ":" + q + ":", d);
    case SymbolV2(p, s, q, d) => EndsWith(p + ":" + s + ":" + q + ":", d);
    case Commit(repo, sha) =>
      Join2(repo, sha);
      EndsWith(repo + ":", sha);
    case BashCall(s, t) =>
      DigitsAvoid(ShowDecimal(t));
      EndsWith(s + ":", ShowDecimal(t));
    case Agent(name, v) =>
      DigitsAvoid(ShowDecimal(v));
      EndsWith(name + "@v", ShowDecimal(v));
    case Artifact(k, n, Some(v)) => EndsWith(k + "/" + n + "@", v);
    case Artifact(k, n, None) => EndsWith(k + "/", n);
    case _ =>
  }

  // ---- parsing: what comes out is accepted ----

  lemma TailClosing(s: string, tail: string)
    requires NoTrailingSpace(s) && |tail| <= |s| && tail == s[|s| - |tail|..]
    ensures NoTrailingSpace(tail)
  {
  }

  lemma ParseArtifactAccepted(rest: string)
    requires NoTrailingSpace(rest) && ParseArtifact(rest).Ok?
    ensures ParseArtifact(rest).value.Artifact? && Accepted(ParseArtifact(rest).value)
  {
    var (kind, tail) := SplitOnce(rest, '/').value;
    ArtifactParsed(rest, kind, tail);
    TailClosing(rest, tail);
    match RSplitOnce(tail, '@')
    case None =>
    case Some((name, text)) => VersionClosing(tail, text);
  }

  lemma ArtifactParsed(rest: string, kind: string, tail: string)
    requires SplitOnce(rest, '/') == Some((kind, tail)) && ParseArtifact(rest).Ok?
    ensures |tail| <= |rest| && tail == rest[|rest| - |tail|..] && ValidArtifactKind(kind)
    ensures match RSplitOnce(tail, '@')
            case None => tail != "" && ParseArtifact(rest).value == Artifact(kind, tail, None)
            case Some((name, text)) =>
              && |text| <= |tail| && text == tail[|tail| - |text|..] && '@' !in text
              && name != "" && StripV(text) != ""
              && ParseArtifact(rest).value == Artifact(kind, name, Some(StripV(text)))
  {
  }

  lemma VersionClosing(tail: string, text: string)
    requires NoTrailingSpace(tail) && |text| <= |tail| && text == tail[|tail| - |text|..]
    ensures NoTrailingSpace(StripV(text)) && forall c :: c in StripV(text) ==> c in text
  {
    TailClosing(tail, text);
    assert StripV(text) == text[|text| - |StripV(text)|..];
    TailClosing(text, StripV(text));
  }

  lemma ParseSymbolAccepted(rest: string)
    requires NoTrailingSpace(rest) && ParseSymbol(rest).Ok?
    ensures ParseSymbol(rest).value.Symbol? && Accepted(ParseSymbol(rest).value)
  {
    var (p, tail) := SplitOnce(rest, ':').value;
    var (q, d) := RSplitOnce(tail, ':').value;
    assert tail == rest[|rest| - |tail|..];
    assert d == tail[|tail| - |d|..];
  }

  lemma ParseSymbolV2Accepted(rest: string)
    requires NoTrailingSpace(rest) && ParseSymbolV2(rest).Ok?
    ensures ParseSymbolV2(rest).value.SymbolV2? && Accepted(ParseSymbolV2(rest).value)
  {
    var (p, tail) := SplitOnce(rest, ':').value;
    var (s, tail') := SplitOnce(tail, ':').value;
    var (q, d) := RSplitOnce(tail', ':').value;
    assert tail == rest[|rest| - |tail|..];
    assert tail' == tail[|tail| - |tail'|..];
    assert d == tail'[|tail'| - |d|..];
  }

  lemma ParseSessionAccepted(rest: string)
    requires NoTrailingSpace(rest) && ParseSession(rest).Ok?
    ensures ParseSession(rest).value.Session? && Accepted(ParseSession(rest).value)
  {
    var (p, s) := SplitOnce(rest, ':').value;
    assert s == rest[|rest| - |s|..];
  }

  lemma ParseCommitAccepted(rest: string)
    requires NoTrailingSpace(rest) && ParseCommit(rest).Ok?
    ensures ParseCommit(rest).value.Commit? && Accepted(ParseCommit(rest).value)
  {
    var parts := SplitAll(rest, ':');
    assert forall i :: 0 <= i < |parts| ==> ':' !in parts[i];
    TailClosing(rest, parts[|parts| - 1]);
  }

  lemma ParseProjectFileAccepted(rest: string)
    requires ParseProjectFile(rest).Ok?
    ensures ParseProjectFile(rest).value.ProjectFile? && Accepted(ParseProjectFile(rest).value)
  {
    var parts := SplitAll(rest, ':');
    assert forall i :: 0 <= i < |parts| ==> ':' !in parts[i];
  }

  lemma ParseProjectFileV2Accepted(rest: string)
    requires ParseProjectFileV2(rest).Ok?
    ensures ParseProjectFileV2(rest).value.ProjectFileV2? && Accepted(ParseProjectFileV2(rest).value)
  {
    var parts := SplitAll(rest, ':');
    assert forall i :: 0 <= i < |parts| ==> ':' !in parts[i];
  }

  lemma ParseAgentAccepted(rest: string)
    requires ParseAgent(rest).Ok?
    ensures ParseAgent(rest).value.Agent? && Accepted(ParseAgent(rest).value)
  {
    var (name, text) := RSplitPair(rest, '@', 'v').value;
    assert forall c :: c in name ==> c in rest;
  }

  lemma ParseTranscriptAccepted(rest: string)
    requires ParseTranscript(rest).Ok?
    ensures ParseTranscript(rest).value.Transcript? && Accepted(ParseTranscript(rest).value)
  {
  }

  lemma ParseBashCallAccepted(rest: string)
    requires ParseBashCall(rest).Ok?
    ensures ParseBashCall(rest).value.BashCall? && Accepted(ParseBashCall(rest).value)
  {
  }

  lemma ParseBodyAccepted(ty: EntityType, rest: string)
    requires NoTrailingSpace(rest) && ParseBody(ty, rest).Ok?
    ensures ParseBody(ty, rest).value.Type() == ty
    ensures Accepted(ParseBody(ty, rest).value)
  {
    match ty
    case TranscriptType => ParseTranscriptAccepted(rest);
    case BashCallType => ParseBashCallAccepted(rest);
    case SessionType => ParseSessionAccepted(rest);
    case SymbolType => ParseSymbolAccepted(rest);
    case SymbolV2Type => ParseSymbolV2Accepted(rest);
    case CommitType => ParseCommitAccepted(rest);
    case ProjectFileType => ParseProjectFileAccepted(rest);
    case ProjectFileV2Type => ParseProjectFileV2Accepted(rest);
    case AgentType => ParseAgentAccepted(rest);
    case ArtifactType => ParseArtifactAccepted(rest);
    case _ =>
  }

  lemma ParseAccepted(input: string)
    requires Parse(input).Ok?
    ensures Accepted(Parse(input).value)
  {
    var s := Trim(input);
    var (prefix, rest) := SplitOnce(s, ':').value;
    assert rest == s[|s| - |rest|..];
    ParseBodyAccepted(FromPrefix(prefix).value, rest);
  }

  // ---- the laws ----

  lemma RenderParses(r: EntityRef)
    requires TryRender(r).Ok? && Closing(Body(r))
    ensures Parse(TryRender(r).value) == ParseBody(r.Type(), Body(r))
  {
    RenderShape(r);
    ParseDispatch(r.Type(), Body(r));
  }

  predicate RoundTrips(r: EntityRef) {
    TryRender(r).Ok? && Parse(TryRender(r).value) == Ok(r)
  }

  lemma WellFormedRenders(r: EntityRef)
    requires WellFormed(r)
    ensures TryRender(r).Ok?
  {
  }

  lemma WellFormedRoundTrips(r: EntityRef)
    requires WellFormed(r)
    ensures RoundTrips(r)
  {
    WellFormedRenders(r);
    BodyClosing(r);
    RenderParses(r);
    BodyRoundTrip(r);
  }

  /** A printed artifact version loses one leading `v` when it is read back. */
  lemma ArtifactReparsed(r: EntityRef)
    requires r.Artifact? && r.version.Some? && ValidArtifactKind(r.kind) && r.name != ""
    requires Closing(r.version.value) && '@' !in r.version.value && StripV(r.version.value) != ""
    ensures Parse(Display(r)) == Ok(r.(version := Some(StripV(r.version.value))))
  {
    var body := Body(r);
    EndsWith(r.kind + "/" + r.name + "@", r.version.value);
    assert Closing(body);
    RenderParses(r);
    ArtifactVersionedBody(body, r.kind, r.name, r.version.value);
  }

  /** A bare `v` after the `@` is not a version at all. */
  lemma BareVBody(body: string, k: string, n: string)
    requires body == k + "/" + n + "@" + "v"
    requires ValidArtifactKind(k) && n != ""
    ensures ParseBody(ArtifactType, body).Err?
  {
    KindHasNoSlash(k);
    assert body == k + ['/'] + (n + "@" + "v");
    SplitOnceAt(k, '/', n + "@" + "v");
    RSplitOnceAt(n, '@', "v");
    assert StripV("v") == "";
    ParseBodyDispatch(ArtifactType, body);
  }

  lemma BareVRejected(r: EntityRef)
    requires r.Artifact? && r.version == Some("v") && ValidArtifactKind(r.kind) && r.name != ""
    ensures Parse(Display(r)).Err?
  {
    var body := Body(r);
    EndsWith(r.kind + "/" + r.name + "@", "v");
    assert Closing(body);
    RenderParses(r);
    BareVBody(body, r.kind, r.name);
  }

  lemma LeadingVDoesNotRoundTrip(r: EntityRef)
    requires r.Artifact? && r.version.Some? && ValidArtifactKind(r.kind) && r.name != ""
    requires Closing(r.version.value) && '@' !in r.version.value && r.version.value[0] == 'v'
    ensures !RoundTrips(r)
  {
    var v := r.version.value;
    if |v| == 1 {
      assert v == "v";
      BareVRejected(r);
    } else {
      ArtifactReparsed(r);
      assert |StripV(v)| < |v|;
    }
  }

  /** Printing and parsing back returns the reference exactly when it is well formed. */
  lemma RoundTripExactly(r: EntityRef)
    ensures RoundTrips(r) <==> WellFormed(r)
  {
    if WellFormed(r) {
      WellFormedRoundTrips(r);
    } else if RoundTrips(r) {
      ParseAccepted(TryRender(r).value);
      if LeadingV(r) {
        LeadingVDoesNotRoundTrip(r);
      }
    }
  }

  /** Everything renders but providers that are empty or hold a colon, and agents without a name or a version. */
  lemma RendersExactly(r: EntityRef)
    ensures TryRender(r).Ok?
            <==> && ((r.Transcript? || r.Session?) ==> r.provider != "" && ':' !in r.provider)
                 && (r.Agent? ==> r.name != "" && ':' !in r.name && r.agentVersion > 0)
  {
  }

  /** What stands for a reference that has no rendering. */
  lemma InvalidShown(r: EntityRef)
    requires TryRender(r).Err?
    ensures r.Transcript? ==>
              Display(r) == "<invalid entity-ref kind=" + "transcript" + (" field=provider value=" + r.provider) + ">"
    ensures r.Session? ==>
              Display(r) == "<invalid entity-ref kind=" + "session" + (" field=provider value=" + r.provider) + ">"
    ensures r.Agent? ==>
              Display(r) == "<invalid entity-ref kind=" + "agent"
                            + (" field=name/version value=" + r.name + "@v" + ShowDecimal(r.agentVersion)) + ">"
  {
    RendersExactly(r);
  }

  /** White space around a reference does not matter. */
  lemma PaddingIgnored(before: string, text: string, behind: string)
    requires Blank(before) && Blank(behind) && NoLeadingSpace(text) && NoTrailingSpace(text)
    ensures Parse(before + text + behind) == Parse(text)
  {
    TrimExactly(before, text, behind);
  }

  /** Two well-formed references that print alike are the same reference. */
  lemma RenderInjective(r: EntityRef, s: EntityRef)
    requires WellFormed(r) && WellFormed(s)
    requires Display(r) == Display(s)
    ensures r == s
  {
    RoundTripExactly(r);
    RoundTripExactly(s);
  }

  /** An accepted reference prints, except for an agent at version 0. */
  lemma AcceptedRenders(input: string)
    requires Parse(input).Ok?
    ensures TryRender(Parse(input).value).Ok? <==> !AgentZero(Parse(input).value)
  {
    ParseAccepted(input);
  }

  /**
   * Printing what was parsed normalises the text: parsing again gives the same
   * reference, except where the version of an artifact still starts with `v`.
   */
  lemma ParseRenderParse(input: string)
    requires Parse(input).Ok? && TryRender(Parse(input).value).Ok?
    ensures Parse(TryRender(Parse(input).value).value) == Parse(input)
            <==> !LeadingV(Parse(input).value)
  {
    ParseAccepted(input);
    AcceptedRenders(input);
    RoundTripExactly(Parse(input).value);
  }

  // ---- numbers ----

  function Zeros(n: nat): string {
    if n == 0 then "" else Zeros(n - 1) + ['0']
  }

  /** `text` is the decimal of `n` behind `zeros` zeros and, perhaps, a plus sign. */
  predicate Denotes(text: string, n: nat, zeros: nat) {
    var digits := Zeros(zeros) + ShowDecimal(n);
    text == digits || text == ['+'] + digits
  }

  lemma {:induction false} ZerosAreDigits(zeros: nat)
    ensures AllDigits(Zeros(zeros)) && DecimalValue(Zeros(zeros)) == 0
  {
    if zeros > 0 {
      ZerosAreDigits(zeros - 1);
    }
  }

  lemma {:induction false} ZeroPrefix(zeros: nat, digits: string)
    requires AllDigits(digits)
    ensures AllDigits(Zeros(zeros) + digits) && DecimalValue(Zeros(zeros) + digits) == DecimalValue(digits)
    decreases |digits|
  {
    var s := Zeros(zeros) + digits;
    ZerosAreDigits(zeros);
    if digits == "" {
      assert s == Zeros(zeros);
    } else {
      ZeroPrefix(zeros, digits[..|digits| - 1]);
      assert s[..|s| - 1] == Zeros(zeros) + digits[..|digits| - 1];
    }
  }

  lemma LastDigit(before: string, last: char)
    requires AllDigits(before + [last])
    ensures AllDigits(before) && IsDigit(last)
    ensures DecimalValue(before + [last]) / 10 == DecimalValue(before)
    ensures ShowDecimal(DecimalValue(before + [last]))
         == if DecimalValue(before) == 0 then [last] else ShowDecimal(DecimalValue(before)) + [last]
  {
    assert (before + [last])[..|before|] == before && (before + [last])[|before|] == last;
    assert forall i :: 0 <= i < |before| ==> before[i] == (before + [last])[i];
  }

  /** Digits are the decimal of their value behind some zeros. */
  lemma {:induction false} DigitsShow(digits: string) returns (zeros: nat)
    requires digits != "" && AllDigits(digits)
    ensures digits == Zeros(zeros) + ShowDecimal(DecimalValue(digits))
  {
    var before, last := digits[..|digits| - 1], digits[|digits| - 1];
    assert digits == before + [last];
    LastDigit(before, last);
    if before == "" {
      return 0;
    }
    zeros := DigitsShow(before);
    if DecimalValue(before) == 0 {
      assert ShowDecimal(0) == ['0'];
      zeros := zeros + 1;
    } else {
      assert Zeros(zeros) + ShowDecimal(DecimalValue(before)) + [last]
          == Zeros(zeros) + (ShowDecimal(DecimalValue(before)) + [last]);
    }
  }

  lemma DigitsParse(digits: string, max: nat)
    requires digits != "" && AllDigits(digits)
    ensures ParseDecimal(digits, max) == ParseDecimal(['+'] + digits, max)
         == if DecimalValue(digits) <= max then Some(DecimalValue(digits)) else None
  {
    assert IsDigit(digits[0]);
    assert (['+'] + digits)[1..] == digits;
  }

  lemma DenotedParses(text: string, n: nat, zeros: nat, max: nat)
    requires Denotes(text, n, zeros) && n <= max
    ensures ParseDecimal(text, max) == Some(n)
  {
    ZeroPrefix(zeros, ShowDecimal(n));
    ShowDecimalValue(n);
    DigitsParse(Zeros(zeros) + ShowDecimal(n), max);
  }

  lemma ParsedDenotes(text: string, n: nat, max: nat) returns (zeros: nat)
    requires ParseDecimal(text, max) == Some(n)
    ensures Denotes(text, n, zeros)
  {
    var digits := if text[0] == '+' then text[1..] else text;
    zeros := DigitsShow(digits);
    assert text[0] == '+' ==> text == ['+'] + digits;
  }

  /** The texts read as `n` are its decimal with any number of leading zeros and an optional plus sign. */
  lemma NumbersNormalise(text: string, n: nat, max: nat)
    ensures ParseDecimal(text, max) == Some(n) <==> n <= max && exists zeros :: Denotes(text, n, zeros)
  {
    if ParseDecimal(text, max) == Some(n) {
      var zeros := ParsedDenotes(text, n, max);
    }
    if n <= max && exists zeros :: Denotes(text, n, zeros) {
      var zeros :| Denotes(text, n, zeros);
      DenotedParses(text, n, zeros, max);
    }
  }
}
