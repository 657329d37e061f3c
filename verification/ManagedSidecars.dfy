/**
 * The writers of edge sidecars (src/edge_index.rs): replacing the derived edges
 * of changed files, purging those of deleted files, merging, and appending
 * without duplicates.
 */
module ManagedSidecars {
  import opened Wrappers
  import opened Text
  import opened Seqs
  import opened KeyedMerge
  import opened EntityRefs
  import opened EntityRefLaws
  import opened Edges
  import opened EdgeLines

  // ---- reading and writing a sidecar ----

  /** A line contributes its edge if it is not blank and parses. */
  function LineEdge(line: Line): seq<Edge> {
    if Trim(line.text) != "" && line.edge.Some? then [line.edge.value] else []
  }

  function ReadEdges(lines: seq<Line>): seq<Edge> {
    FlatMap(LineEdge, lines)
  }

  function WriteEdges(edges: seq<Edge>): seq<Line> {
    MapSeq(LineOf, edges)
  }

  /** An edge as it is written back: its metadata is gone. */
  function Strip(e: Edge): Edge {
    Persist(e.Key())
  }

  function StripAll(edges: seq<Edge>): seq<Edge> {
    MapSeq(Strip, edges)
  }

  predicate AllBare(edges: seq<Edge>) {
    forall e :: e in edges ==> e.metadata == []
  }

  lemma TrimKeepsFirst(s: string)
    requires s != "" && !IsWhitespace(s[0])
    ensures Trim(s) != ""
  {
    TrimEndKeeps(s, 0);
  }

  lemma LineEdgeOf(e: Edge)
    ensures LineEdge(LineOf(e)) == [e]
  {
    assert PrintEdge(e)[0] == '{';
    TrimKeepsFirst(PrintEdge(e));
  }

  /** What was written is what is read. */
  lemma ReadWrite(edges: seq<Edge>)
    ensures ReadEdges(WriteEdges(edges)) == edges
  {
    forall e | e in edges
      ensures LineEdge(LineOf(e)) == [e]
    {
      LineEdgeOf(e);
    }
    FlatMapMap(LineEdge, LineOf, edges);
  }

  lemma StripBare(edges: seq<Edge>)
    ensures AllBare(StripAll(edges))
    ensures AllBare(edges) ==> StripAll(edges) == edges
  {
  }

  lemma BareConcat(a: seq<Edge>, b: seq<Edge>)
    requires AllBare(a) && AllBare(b)
    ensures AllBare(a + b)
  {
  }

  // ---- the files an edge mentions ----

  function FileHash(r: EntityRef): Option<string> {
    if r.ProjectFile? || r.ProjectFileV2? then Some(r.relPathHash) else None
  }

  predicate Mentions(e: Edge, h: string) {
    FileHash(e.source) == Some(h) || FileHash(e.target) == Some(h)
  }

  /** Some edge of the batch starts from or points to the project file with that hash. */
  ghost predicate IsMentioned(edges: seq<Edge>, h: string) {
    exists e :: e in edges && Mentions(e, h)
  }

  function HashSet(h: Option<string>): set<string> {
    match h
    case Some(x) => {x}
    case None => {}
  }

  function EndpointHashes(e: Edge): set<string> {
    HashSet(FileHash(e.source)) + HashSet(FileHash(e.target))
  }

  /** `rel_path_hashes_of` */
  method RelPathHashesOf(edges: seq<Edge>) returns (hashes: set<string>)
    ensures forall h :: h in hashes <==> IsMentioned(edges, h)
  {
    hashes := {};
    for i := 0 to |edges|
      invariant forall h :: h in hashes <==> exists j :: 0 <= j < i && Mentions(edges[j], h)
    {
      hashes := hashes + HashSet(FileHash(edges[i].source)) + HashSet(FileHash(edges[i].target));
    }
  }

  /** The stale set of a batch. */
  ghost predicate HashesOf(batch: seq<Edge>, stale: set<string>) {
    forall h :: h in stale <==> IsMentioned(batch, h)
  }

  function BatchHashes(batch: seq<Edge>): set<string> {
    set e, h | e in batch && h in EndpointHashes(e) :: h
  }

  /** It is determined by the batch. */
  lemma HashesDetermined(batch: seq<Edge>, stale: set<string>)
    ensures HashesOf(batch, stale) <==> stale == BatchHashes(batch)
  {
    forall h
      ensures h in BatchHashes(batch) <==> IsMentioned(batch, h)
    {
      if h in BatchHashes(batch) {
        var e :| e in batch && h in EndpointHashes(e);
        assert Mentions(e, h);
      }
      if IsMentioned(batch, h) {
        var e :| e in batch && Mentions(e, h);
        assert h in EndpointHashes(e);
      }
    }
  }

  function NotFiledUnder(stale: set<string>): Edge -> bool {
    e => !TouchesAnyPathHash(e, stale)
  }

  /** The edges not filed under one of the stale hashes, in order. */
  function Keep(edges: seq<Edge>, stale: set<string>): seq<Edge> {
    Filter(NotFiledUnder(stale), edges)
  }

  predicate Fileless(e: Edge) {
    LeadHash(e.source, e.target).None?
  }

  function FilelessPart(edges: seq<Edge>): seq<Edge> {
    Filter(Fileless, edges)
  }

  lemma KeepStripped(edges: seq<Edge>, stale: set<string>)
    ensures Keep(StripAll(edges), stale) == StripAll(Keep(edges, stale))
  {
    FilterMap(NotFiledUnder(stale), Strip, edges);
  }

  lemma KeepIdempotent(edges: seq<Edge>, stale: set<string>)
    ensures Keep(Keep(edges, stale), stale) == Keep(edges, stale)
  {
    FilterMembers(NotFiledUnder(stale), edges);
    FilterAll(NotFiledUnder(stale), Keep(edges, stale));
  }

  /** Of its own batch, an incremental replacement only ever keeps the file-less edges. */
  lemma KeepOfBatch(batch: seq<Edge>, stale: set<string>)
    requires HashesOf(batch, stale)
    ensures Keep(batch, stale) == FilelessPart(batch)
  {
    forall e | e in batch
      ensures NotFiledUnder(stale)(e) == Fileless(e)
    {
      if !Fileless(e) {
        assert Mentions(e, LeadHash(e.source, e.target).value);
      }
    }
    FilterAgree(NotFiledUnder(stale), Fileless, batch);
  }

  // ---- incremental replacement ----

  /** The edges of a sidecar after a non-empty batch of new edges replaced the stale ones. */
  function Incremental(existing: seq<Edge>, batch: seq<Edge>, stale: set<string>): seq<Edge> {
    StripAll(Keep(existing, stale)) + batch
  }

  function Replays(existing: seq<Edge>, batch: seq<Edge>, stale: set<string>, n: nat): seq<Edge> {
    if n == 0 then existing else Incremental(Replays(existing, batch, stale, n - 1), batch, stale)
  }

  /** One more replay keeps everything but the batch itself, of which the file-less part stays. */
  lemma ReplayStep(kept: seq<Edge>, copies: seq<Edge>, batch: seq<Edge>, stale: set<string>)
    requires AllBare(kept) && AllBare(copies) && AllBare(batch) && HashesOf(batch, stale)
    requires Keep(kept, stale) == kept && Keep(copies, stale) == copies
    ensures Incremental(kept + copies + batch, batch, stale)
         == kept + copies + FilelessPart(batch) + batch
  {
    FilterConcat(NotFiledUnder(stale), kept + copies, batch);
    FilterConcat(NotFiledUnder(stale), kept, copies);
    KeepOfBatch(batch, stale);
    FilterMembers(Fileless, batch);
    StripBare(kept + copies + FilelessPart(batch));
  }

  lemma CopiesKept(batch: seq<Edge>, stale: set<string>, n: nat)
    requires AllBare(batch)
    ensures AllBare(Repeat(FilelessPart(batch), n))
    ensures Keep(Repeat(FilelessPart(batch), n), stale) == Repeat(FilelessPart(batch), n)
  {
    FilterMembers(Fileless, batch);
    FilterAll(NotFiledUnder(stale), FilelessPart(batch));
    FilterRepeat(NotFiledUnder(stale), FilelessPart(batch), n);
  }

  lemma ReplayNext(existing: seq<Edge>, batch: seq<Edge>, stale: set<string>, n: nat, before: seq<Edge>)
    requires AllBare(batch) && HashesOf(batch, stale)
    requires before == StripAll(Keep(existing, stale)) + Repeat(FilelessPart(batch), n) + batch
    ensures Incremental(before, batch, stale)
         == StripAll(Keep(existing, stale)) + Repeat(FilelessPart(batch), n + 1) + batch
  {
    var kept := StripAll(Keep(existing, stale));
    var copies := Repeat(FilelessPart(batch), n);
    KeepIdempotent(existing, stale);
    KeepStripped(Keep(existing, stale), stale);
    CopiesKept(batch, stale, n);
    StripBare(Keep(existing, stale));
    ReplayStep(kept, copies, batch, stale);
    Associate(kept, copies, FilelessPart(batch));
  }

  /**
   * After `n + 1` replays of a batch: the surviving old edges, `n` copies of the
   * batch's file-less edges, and the batch.
   */
  lemma {:induction false} ReplayForm(existing: seq<Edge>, batch: seq<Edge>, stale: set<string>, n: nat)
    requires AllBare(batch) && HashesOf(batch, stale)
    ensures Replays(existing, batch, stale, n + 1)
         == StripAll(Keep(existing, stale)) + Repeat(FilelessPart(batch), n) + batch
    decreases n
  {
    if n == 0 {
      ReplayOnce(existing, batch, stale);
    } else {
      ReplayForm(existing, batch, stale, n - 1);
      ReplayNext(existing, batch, stale, n - 1, Replays(existing, batch, stale, n));
    }
  }

  lemma ReplayOnce(existing: seq<Edge>, batch: seq<Edge>, stale: set<string>)
    ensures Replays(existing, batch, stale, 1)
         == StripAll(Keep(existing, stale)) + Repeat(FilelessPart(batch), 0) + batch
  {
    assert Replays(existing, batch, stale, 0) == existing;
    assert StripAll(Keep(existing, stale)) + [] == StripAll(Keep(existing, stale));
  }

  /** Replaying a batch changes nothing exactly when each of its edges has a project-file endpoint. */
  lemma ReplayUnchanged(existing: seq<Edge>, batch: seq<Edge>, stale: set<string>)
    requires AllBare(batch) && HashesOf(batch, stale)
    ensures (Replays(existing, batch, stale, 2) == Replays(existing, batch, stale, 1))
            <==> (forall e :: e in batch ==> !Fileless(e))
  {
    ReplayForm(existing, batch, stale, 0);
    ReplayForm(existing, batch, stale, 1);
    FilterMembers(Fileless, batch);
    assert Repeat(FilelessPart(batch), 1) == FilelessPart(batch);
    if FilelessPart(batch) != [] {
      assert FilelessPart(batch)[0] in FilelessPart(batch);
    }
  }

  /** Each replay grows the sidecar by the batch's file-less edges, and adds no edge that is not there. */
  lemma ReplayGrowth(existing: seq<Edge>, batch: seq<Edge>, stale: set<string>, n: nat)
    requires AllBare(batch) && HashesOf(batch, stale)
    ensures |Replays(existing, batch, stale, n + 1)|
         == |Replays(existing, batch, stale, 1)| + n * |FilelessPart(batch)|
    ensures forall e :: e in Replays(existing, batch, stale, n + 1)
                        <==> e in Replays(existing, batch, stale, 1)
  {
    ReplayForm(existing, batch, stale, 0);
    ReplayForm(existing, batch, stale, n);
    FilterMembers(Fileless, batch);
  }

  // ---- purging ----

  predicate MentionsAny(e: Edge, stale: set<string>) {
    EndpointHashes(e) * stale != {}
  }

  predicate FreshToStale(e: Edge, stale: set<string>) {
    && FileHash(e.source).Some? && FileHash(e.source).value !in stale
    && FileHash(e.target).Some? && FileHash(e.target).value in stale
  }

  lemma SurvivesMentioning(e: Edge, stale: set<string>)
    ensures (MentionsAny(e, stale) && !TouchesAnyPathHash(e, stale)) <==> FreshToStale(e, stale)
  {
    if FreshToStale(e, stale) {
      assert FileHash(e.target).value in EndpointHashes(e) * stale;
    }
    if MentionsAny(e, stale) {
      assert exists h :: h in EndpointHashes(e) && h in stale;
    }
  }

  /**
   * The documentation promises that no edge whose source *or* target is stale
   * survives. That holds exactly when no edge leads from a fresh file to a stale one.
   */
  lemma PurgeCompleteness(edges: seq<Edge>, stale: set<string>)
    ensures (forall e :: e in Keep(edges, stale) ==> !MentionsAny(e, stale))
            <==> (forall e :: e in edges ==> !FreshToStale(e, stale))
    ensures forall e :: e in edges && Fileless(e) ==> e in Keep(edges, stale)
  {
    FilterMembers(NotFiledUnder(stale), edges);
    forall e | e in edges
      ensures (e in Keep(edges, stale) && MentionsAny(e, stale)) <==> FreshToStale(e, stale)
    {
      SurvivesMentioning(e, stale);
    }
  }

  /** An edge from a fresh file to a stale one is such a survivor. */
  lemma PurgeWitness(p: string, freshHash: string, staleHash: string, chunk: string, kind: string)
    requires freshHash != staleHash
    ensures var e := Edge(ProjectFile(p, freshHash, chunk, 0), kind, ProjectFile(p, staleHash, chunk, 0),
                          Derived, Exact, []);
            e in Keep([e], {staleHash}) && Mentions(e, staleHash)
  {
    var e := Edge(ProjectFile(p, freshHash, chunk, 0), kind, ProjectFile(p, staleHash, chunk, 0),
                  Derived, Exact, []);
    FilterMembers(NotFiledUnder({staleHash}), [e]);
    assert e in [e];
  }

  // ---- import keys ----

  function CommitOf(e: Edge): string {
    match e.Anchor()
    case Some(commit) => commit
    case None => ""
  }

  /** What `edge_import_key` hashes. */
  function ImportKey(e: Edge): string {
    Display(e.source) + ['\0'] + (e.kind + ['\0'] + (Display(e.target) + ['\0'] + CommitOf(e)))
  }

  predicate Framable(e: Edge) {
    && WellFormed(e.source) && WellFormed(e.target)
    && '\0' !in Display(e.source) && '\0' !in e.kind && '\0' !in Display(e.target)
  }

  lemma CutAtNul(a: string, x: string, b: string, y: string)
    requires '\0' !in a && '\0' !in b
    requires a + ['\0'] + x == b + ['\0'] + y
    ensures a == b && x == y
  {
    SplitOnceAt(a, '\0', x);
    SplitOnceAt(b, '\0', y);
  }

  lemma CutTwice(a: string, b: string, c: string, x: string, a': string, b': string, c': string, x': string)
    requires '\0' !in a && '\0' !in b && '\0' !in c && '\0' !in a' && '\0' !in b' && '\0' !in c'
    requires a + ['\0'] + (b + ['\0'] + (c + ['\0'] + x)) == a' + ['\0'] + (b' + ['\0'] + (c' + ['\0'] + x'))
    ensures a == a' && b == b' && c == c' && x == x'
  {
    CutAtNul(a, b + ['\0'] + (c + ['\0'] + x), a', b' + ['\0'] + (c' + ['\0'] + x'));
    CutAtNul(b, c + ['\0'] + x, b', c' + ['\0'] + x');
    CutAtNul(c, x, c', x');
  }

  /** Equal preimages mean the same source, kind, target and commit. */
  lemma ImportKeyInjective(e: Edge, f: Edge)
    requires Framable(e) && Framable(f)
    ensures (ImportKey(e) == ImportKey(f))
            <==> (e.source == f.source && e.kind == f.kind && e.target == f.target
                  && CommitOf(e) == CommitOf(f))
  {
    if ImportKey(e) == ImportKey(f) {
      CutTwice(Display(e.source), e.kind, Display(e.target), CommitOf(e),
               Display(f.source), f.kind, Display(f.target), CommitOf(f));
      RenderInjective(e.source, f.source);
      RenderInjective(e.target, f.target);
    }
  }

  // ---- merging ----

  function ImportKeys(edges: seq<Edge>): set<string> {
    KeysOf(ImportKey, edges)
  }

  function Added(seen: set<string>, batch: seq<Edge>): seq<Edge> {
    Fresh(ImportKey, seen, batch)
  }

  /** The edges of a sidecar after a non-empty batch was merged into it. */
  function Merged(existing: seq<Edge>, batch: seq<Edge>): seq<Edge> {
    StripAll(existing) + Added(ImportKeys(existing), batch)
  }

  lemma AddedBare(seen: set<string>, batch: seq<Edge>)
    requires AllBare(batch)
    ensures AllBare(Added(seen, batch))
  {
    FreshSubset(ImportKey, seen, batch);
  }

  /** The existing edges stay in front; what is appended has new, pairwise distinct keys. */
  lemma MergeShape(existing: seq<Edge>, batch: seq<Edge>)
    ensures StripAll(existing) <= Merged(existing, batch)
    ensures Merged(existing, batch)[|existing|..] == Added(ImportKeys(existing), batch)
    ensures DistinctKeys(ImportKey, Added(ImportKeys(existing), batch))
    ensures ImportKeys(Added(ImportKeys(existing), batch)) == ImportKeys(batch) - ImportKeys(existing)
  {
    FreshDistinct(ImportKey, ImportKeys(existing), batch);
    FreshKeys(ImportKey, ImportKeys(existing), batch);
  }

  predicate AllFramable(edges: seq<Edge>) {
    forall e :: e in edges ==> Framable(e)
  }

  /** Stripping loses no key that an edge without a commit can have. */
  lemma BareKeySurvivesStrip(existing: seq<Edge>, e: Edge)
    requires e.metadata == [] && ImportKey(e) in ImportKeys(existing)
    requires AllBare(existing) || (AllFramable(existing) && Framable(e))
    ensures ImportKey(e) in ImportKeys(StripAll(existing))
  {
    var i :| 0 <= i < |existing| && ImportKey(existing[i]) == ImportKey(e);
    assert StripAll(existing)[i] == Strip(existing[i]);
    assert ImportKey(Strip(existing[i])) in ImportKeys(StripAll(existing));
    if AllBare(existing) {
      assert Strip(existing[i]) == existing[i];
    } else {
      ImportKeyInjective(existing[i], e);
      ImportKeyInjective(Strip(existing[i]), e);
    }
  }

  /** The keys a second batch is compared with, when the batches are merged one after the other. */
  function SeenInTurn(existing: seq<Edge>, first: seq<Edge>): set<string> {
    ImportKeys(StripAll(existing)) + (ImportKeys(first) - ImportKeys(existing))
  }

  /** The keys it is compared with, when both are merged as one batch. */
  function SeenAtOnce(existing: seq<Edge>, first: seq<Edge>): set<string> {
    ImportKeys(existing) + ImportKeys(first)
  }

  lemma MergeInTurn(existing: seq<Edge>, first: seq<Edge>, second: seq<Edge>)
    requires AllBare(first)
    ensures Merged(Merged(existing, first), second)
         == Merged(existing, first) + Added(SeenInTurn(existing, first), second)
  {
    var added := Added(ImportKeys(existing), first);
    StripBare(existing);
    AddedBare(ImportKeys(existing), first);
    BareConcat(StripAll(existing), added);
    StripBare(Merged(existing, first));
    FreshKeys(ImportKey, ImportKeys(existing), first);
    KeysConcat(ImportKey, StripAll(existing), added);
  }

  lemma MergeAtOnce(existing: seq<Edge>, first: seq<Edge>, second: seq<Edge>)
    ensures Merged(existing, first + second)
         == Merged(existing, first) + Added(SeenAtOnce(existing, first), second)
  {
    FreshConcat(ImportKey, ImportKeys(existing), first, second);
  }

  lemma SamePrefix<T>(s: seq<T>, a: seq<T>, b: seq<T>)
    ensures s + a == s + b <==> a == b
  {
    if s + a == s + b {
      assert a == (s + a)[|s|..] && b == (s + b)[|s|..];
    }
  }

  /**
   * Merging the same batch again changes nothing exactly when rewriting the sidecar
   * loses no key of the batch with the metadata it drops.
   */
  lemma MergeAgainExactly(existing: seq<Edge>, batch: seq<Edge>)
    requires AllBare(batch)
    ensures Merged(Merged(existing, batch), batch) == Merged(existing, batch)
            <==> forall k :: k in ImportKeys(batch) && k in ImportKeys(existing) ==>
                               k in ImportKeys(StripAll(existing))
  {
    MergeInTurn(existing, batch, batch);
    SamePrefix(Merged(existing, batch), Added(SeenInTurn(existing, batch), batch), []);
    assert Merged(existing, batch) + [] == Merged(existing, batch);
    FreshNoneExactly(ImportKey, SeenInTurn(existing, batch), batch);
  }

  /** So it does in a managed sidecar, and with well-formed references. */
  lemma MergeAgain(existing: seq<Edge>, batch: seq<Edge>)
    requires AllBare(batch)
    requires AllBare(existing) || (AllFramable(existing) && AllFramable(batch))
    ensures Merged(Merged(existing, batch), batch) == Merged(existing, batch)
  {
    forall k | k in ImportKeys(batch) && k in ImportKeys(existing)
      ensures k in ImportKeys(StripAll(existing))
    {
      var b :| b in batch && ImportKey(b) == k;
      BareKeySurvivesStrip(existing, b);
    }
    MergeAgainExactly(existing, batch);
  }

  /**
   * Merging A then B equals merging A followed by B exactly when stripping the
   * existing metadata does not change which keys of B are already present.
   */
  lemma MergeTwice(existing: seq<Edge>, first: seq<Edge>, second: seq<Edge>)
    requires AllBare(first)
    ensures (Merged(Merged(existing, first), second) == Merged(existing, first + second))
            <==> (forall k :: k in ImportKeys(second) ==>
                    (k in SeenInTurn(existing, first) <==> k in SeenAtOnce(existing, first)))
  {
    MergeInTurn(existing, first, second);
    MergeAtOnce(existing, first, second);
    SamePrefix(Merged(existing, first), Added(SeenInTurn(existing, first), second),
               Added(SeenAtOnce(existing, first), second));
    FreshDependsOn(ImportKey, SeenInTurn(existing, first), SeenAtOnce(existing, first), second);
  }

  /** On sidecars without metadata, the only ones this store writes, the two always agree. */
  lemma MergeTwiceManaged(existing: seq<Edge>, first: seq<Edge>, second: seq<Edge>)
    requires AllBare(existing) && AllBare(first)
    ensures Merged(Merged(existing, first), second) == Merged(existing, first + second)
  {
    StripBare(existing);
    MergeTwice(existing, first, second);
  }

  /** An anchored edge in the sidecar is the witness that they can differ. */
  lemma MergeTwiceWitness(anchored: Edge, other: Edge)
    requires Framable(anchored) && Framable(other) && other.metadata == []
    requires CommitOf(anchored) != "" && other.source != anchored.source
    ensures Merged(Merged([anchored], [other]), [Strip(anchored)])
         != Merged([anchored], [other] + [Strip(anchored)])
  {
    var bare := Strip(anchored);
    ImportKeyInjective(anchored, bare);
    ImportKeyInjective(other, bare);
    MergeTwice([anchored], [other], [bare]);
    OneKey(anchored);
    OneKey(other);
    OneKey(bare);
    assert StripAll([anchored]) == [bare];
    assert ImportKey(bare) in SeenInTurn([anchored], [other]);
    assert ImportKey(bare) !in SeenAtOnce([anchored], [other]);
  }

  lemma OneKey(e: Edge)
    ensures ImportKeys([e]) == {ImportKey(e)}
  {
    assert e in [e];
  }

  // ---- the store ----

  predicate ManagedForm(lines: seq<Line>) {
    lines == WriteEdges(ReadEdges(lines)) && AllBare(ReadEdges(lines))
  }

  lemma WriteManaged(edges: seq<Edge>)
    requires AllBare(edges)
    ensures ManagedForm(WriteEdges(edges)) && ReadEdges(WriteEdges(edges)) == edges
  {
    ReadWrite(edges);
  }

  function PersistAll(bare: seq<BareEdge>): (edges: seq<Edge>)
    ensures AllBare(edges)
  {
    MapSeq(Persist, bare)
  }

  type SidecarKey = (string, string)

  /** The managed derived sidecars by (namespace, project); an absent file is an empty one. */
  class ManagedStore {
    var files: map<SidecarKey, seq<Line>>

    function Content(key: SidecarKey): seq<Line>
      reads this
    {
      if key in files then files[key] else []
    }

    /** `read_managed_derived_edges` */
    function EdgesAt(key: SidecarKey): seq<Edge>
      reads this
    {
      ReadEdges(Content(key))
    }

    /** Every file was written by this store: one printed edge per line, no metadata. */
    ghost predicate Managed()
      reads this
    {
      forall key :: key in files ==> ManagedForm(files[key])
    }

    /** The sidecar at `key` holds these edges, and no other sidecar differs from `before`. */
    ghost predicate Rewritten(key: SidecarKey, edges: seq<Edge>, before: map<SidecarKey, seq<Line>>)
      reads this
    {
      Content(key) == WriteEdges(edges) && EdgesAt(key) == edges && files - {key} == before - {key}
    }

    constructor ()
      ensures files == map[] && Managed()
    {
      files := map[];
    }

    /** `replace_project_edges`: write a temporary file and rename it, or remove the file when empty. */
    method ReplaceProjectEdges(key: SidecarKey, edges: seq<Edge>)
      requires AllBare(edges)
      modifies this
      ensures Rewritten(key, edges, old(files))
      ensures old(Managed()) ==> Managed()
    {
      WriteManaged(edges);
      if edges == [] {
        files := files - {key};
      } else {
        files := files[key := WriteEdges(edges)];
      }
    }

    method ReplaceIncremental(key: SidecarKey, batch: seq<BareEdge>)
      modifies this
      ensures batch == [] ==> files == old(files)
      ensures batch != [] ==>
                var edges := PersistAll(batch);
                Rewritten(key, Incremental(old(EdgesAt(key)), edges, BatchHashes(edges)), old(files))
      ensures old(Managed()) ==> Managed()
    {
      var hashes := RelPathHashesOf(PersistAll(batch));
      HashesDetermined(PersistAll(batch), hashes);
      if batch == [] {
        return;
      }
      var preserved := StripAll(Keep(EdgesAt(key), hashes));
      StripBare(Keep(EdgesAt(key), hashes));
      BareConcat(preserved, PersistAll(batch));
      ReplaceProjectEdges(key, preserved + PersistAll(batch));
    }

    /** Returns how many edges were dropped; a sidecar that loses none is not rewritten. */
    method PurgeForPathHashes(key: SidecarKey, stale: set<string>) returns (purged: nat)
      modifies this
      ensures purged == |old(EdgesAt(key))| - |Keep(old(EdgesAt(key)), stale)|
      ensures purged == 0 ==> files == old(files) && Keep(EdgesAt(key), stale) == EdgesAt(key)
      ensures purged > 0 ==> Rewritten(key, StripAll(Keep(old(EdgesAt(key)), stale)), old(files))
      ensures old(Managed()) ==> Managed()
    {
      var existing := EdgesAt(key);
      FilterAll(NotFiledUnder(stale), existing);
      if stale == {} {
        return 0;
      }
      var retained := Keep(existing, stale);
      purged := |existing| - |retained|;
      if purged > 0 {
        StripBare(retained);
        ReplaceProjectEdges(key, StripAll(retained));
      }
    }

    method MergeEdges(key: SidecarKey, batch: seq<BareEdge>)
      modifies this
      ensures batch == [] ==> files == old(files)
      ensures batch != [] ==> Rewritten(key, Merged(old(EdgesAt(key)), PersistAll(batch)), old(files))
      ensures old(Managed()) ==> Managed()
    {
      if batch == [] {
        return;
      }
      var existing := EdgesAt(key);
      var added := CollectFresh(ImportKey, ImportKeys(existing), PersistAll(batch));
      StripBare(existing);
      AddedBare(ImportKeys(existing), PersistAll(batch));
      BareConcat(StripAll(existing), added);
      ReplaceProjectEdges(key, StripAll(existing) + added);
    }
  }

  // ---- deduplicating append ----

  function ParsedEdge(line: Line): seq<Edge> {
    if line.edge.Some? then [line.edge.value] else []
  }

  /** The keys of the lines that parse; blank lines are not skipped beforehand. */
  function LinesKeys(lines: seq<Line>): set<string> {
    ImportKeys(FlatMap(ParsedEdge, lines))
  }

  /**
   * `append_edges_dedup`: the existing lines stay, and each edge whose key is not yet
   * present is written once, metadata included.
   */
  method AppendDedup(lines: seq<Line>, batch: seq<Edge>) returns (result: seq<Line>, written: nat)
    ensures result == lines + WriteEdges(Added(LinesKeys(lines), batch))
    ensures written == |Added(LinesKeys(lines), batch)|
  {
    if batch == [] {
      assert WriteEdges(Added(LinesKeys(lines), batch)) == [];
      return lines, 0;
    }
    var seen: set<string> := {};
    for i := 0 to |lines|
      invariant seen == LinesKeys(lines[..i])
    {
      assert lines[..i + 1][..i] == lines[..i];
      KeysConcat(ImportKey, FlatMap(ParsedEdge, lines[..i]), ParsedEdge(lines[i]));
      match lines[i].edge {
        case Some(e) => seen := seen + {ImportKey(e)};
        case None =>
      }
    }
    assert lines[..|lines|] == lines;
    var added := CollectFresh(ImportKey, seen, batch);
    return lines + WriteEdges(added), |added|;
  }

  /** Appending a batch a second time writes nothing. */
  lemma AppendAgain(lines: seq<Line>, batch: seq<Edge>)
    ensures Added(LinesKeys(lines + WriteEdges(Added(LinesKeys(lines), batch))), batch) == []
  {
    var added := Added(LinesKeys(lines), batch);
    FlatMapConcat(ParsedEdge, lines, WriteEdges(added));
    FlatMapMap(ParsedEdge, LineOf, added);
    KeysConcat(ImportKey, FlatMap(ParsedEdge, lines), added);
    FreshKeys(ImportKey, LinesKeys(lines), batch);
    FreshNone(ImportKey, LinesKeys(lines + WriteEdges(added)), batch);
  }
}
