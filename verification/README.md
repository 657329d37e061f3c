# Model of the edge graph, catalog and streaming core

This project models seven parts of the repository and proves properties of
them: the edge graph and its sidecar files, the textual references to entities,
the artifact catalog, the two streaming readers, cron admission, the text
framing and truncation of the embedding queue, and the width allocation of
tables. `dafny verify dfyconfig.toml` checks all of it.

How the parts are modelled:

- **Entity references** (`EntityRefs`, `EntityRefLaws`, `EntityErrors`,
  `ArtifactRefs`, `Levenshtein`). The parser and the printer are functions on
  strings. A reference round-trips exactly when it is well-formed; the two-row
  Levenshtein loop is proved against the recursive distance, which in turn is the
  least length of an edit script.
- **The edge graph** (`Edges`, `EdgeLines`, `EdgeLoading`, `EdgeIndexes`,
  `EdgeLookups`, `LoadingPlaces`). `EdgeIndex` is a class with the edge vector and
  its four secondary indexes; every lookup is proved equal to a scan, and
  `EdgeLookups` says what each finds. Loading is a chain of methods, each of which
  leaves just the first edge of every key among those of the files read, in the
  order read. The order of enumeration cannot change the keys; it can change the
  metadata kept, exactly when two files keep different edges under one new key.
  `LoadingPlaces` says for every file of every lane which of its lines count.
  `EdgeLines` prints an edge as JSON (strings escaped as in section 7 of RFC 8259)
  to state what the textual test for derived lines misses; `EdgeTexts` says what a
  printed line is.
- **Sidecar transformations** (`KeyedMerge`, `ManagedSidecars`, `SidecarRewrites`,
  `Compaction`, `ByteLines`). A sidecar is a sequence of lines, a directory a map.
  `Compaction` works on bytes and file operations that may fail, and keeps the set
  of all states the directory was in.
- **The artifact catalog** (`CanonicalJson`, `ArtifactPaths`, `ArtifactCatalog`,
  `Renaming`, `ArtifactDisk`, `Installations`, `CatalogRecords`, `CatalogLayout`).
  `ArtifactCatalog` keeps files by slot (scope, kind, name, role) and proves
  coherence over every run; `ArtifactPaths` proves exactly which slots share a
  path. `ArtifactDisk` is the catalog as a class over a map from paths to
  contents: its methods do what the code does on any disk and any request (but for
  paths that a version splits or redirects), and over every run of admissible
  operations the disk holds just the slots. `Installations` says what an
  installation reads from its request and records, chains over runs included;
  `CatalogRecords` says which record every operation leaves under every name, and
  `CatalogLayout` which text every path has.
- **Streaming readers** (`SseStream`, `SsePayloads`, `SseSchedules`, `Chopping`,
  `GrowingFile`, `TailCursor`). Both are classes over a buffer or an offset; what
  they show is proved to depend on the bytes alone, not on the chunks or polls.
  Where an event stream is cut can depend on the chunks, and `SseSchedules` says
  exactly when.
- **Cron admission** (`CronAdmission`). The registry is a class; ticks, dispatch
  outcomes, aborted dispatches, arc exits and removals are the events of a state
  machine.
- **Framing and truncation** (`Utf8`, `Utf8Text`, `ThreadHash`, `TruncateMiddle`)
  and **tables** (`TableWidths`, `TableRender`, `TableLayout`).

Where the code and its comments differ, the model follows the code:

- `src/edge_index.rs:1435-1440` says a purge drops edges whose source or target is
  stale. The test looks at the target only when the source is not a project file
  (`ManagedSidecars.PurgeCompleteness`, `ManagedSidecars.PurgeWitness`).
- `src/crons.rs:284-286` promises the slot back when a dispatch fails. It is given
  back only when the dispatch succeeds with another status than a started arc;
  neither a failure nor a task aborted because the cron was installed again
  (`src/crons.rs:162-166`) gives it back (`CronAdmission.Conservation` carries the
  leak). Removing a cron forgets its counter, so its live arcs can exceed the cap
  (`CronAdmission.CapKeptExactly` says when they cannot).
- Merging A and then B is not merging A followed by B when the sidecar holds an
  edge with a commit anchor, because rewriting drops the anchor
  (`ManagedSidecars.MergeTwice`, `ManagedSidecars.MergeTwiceWitness`).
- `TailCursor`: the branch that resets the offset after a truncation cannot be
  reached; a file replaced by a shorter one is not read again. Seeding strips one
  carriage return from a line, polling strips all of them (`TailCursor.ReadAlike`
  says for which lines that is the same). A complete line that is not UTF-8 stops
  every later poll (`TailCursor.BadLineStops`).
- `ArtifactPaths`: the check on names accepts `m/metadata`, `m/.versions` and
  `m/.versions/v1`, whose files collide with those of `m`; versions are not
  checked at installation.

## Model

| member | source | states |
|---|---|---|
| EntityRefLaws.RoundTripExactly | src/entity_ref.rs:222-368 | a reference renders and parses back to itself exactly when its fields meet the grammar's side conditions, for all 19 variants |
| EntityRefLaws.BodyRoundTrip | src/entity_ref.rs:548-740 | every variant's body parser undoes its printer on well-formed fields |
| EntityRefLaws.RenderInjective | src/entity_ref.rs:286-368 | two well-formed references with the same text are equal |
| EntityRefLaws.ParseAccepted | src/entity_ref.rs:222-284 | what an accepted string parses to has non-empty fields, colons only where the grammar allows and no trailing white space |
| EntityRefLaws.AcceptedRenders | src/entity_ref.rs:286-368 | a parsed reference renders unless it is an agent with version 0 |
| EntityRefLaws.ParseRenderParse | src/entity_ref.rs:222-368 | parsing, rendering and parsing again gives the same reference exactly when it is not an artifact version that still starts with `v` |
| EntityRefLaws.ArtifactReparsed | src/entity_ref.rs:682-739 | rendering an artifact with a version and parsing it strips one leading `v` |
| EntityRefLaws.BareVRejected | src/entity_ref.rs:682-739 | an artifact whose version is just `v` does not parse back |
| EntityRefLaws.NumbersNormalise | src/entity_ref.rs:788-808 | the texts that parse to a number within the limit are exactly its decimal, behind any count of zeros and an optional plus sign |
| EntityRefLaws.ParseDispatch | src/entity_ref.rs:222-284 | behind a known type name and a colon, parsing is that type's body parser |
| EntityRefLaws.UntypedRejected | src/entity_ref.rs:222-284 | a text without a colon has no type, and the type is unknown exactly when what comes before the first colon names none |
| EntityRefLaws.BodyErrors | src/entity_ref.rs:548-740 | behind a known type every error names that type |
| EntityErrors.SingleRefused | src/entity_ref.rs:548-558 | a one-field text with a colon has a bad shape, an empty one an empty field, and any other is accepted |
| EntityErrors.TranscriptRefused | src/entity_ref.rs:560-570 | of a transcript with three colons or more, first an empty provider or session id is reported, then a line offset or event index that is no number of 64 or 32 bits; without a fault it is accepted |
| EntityErrors.TranscriptMissing | src/entity_ref.rs:560-570 | with fewer colons it is the event index, then the line offset, then the session id that is missing |
| EntityErrors.FileRefused | src/entity_ref.rs:572-576 | only the empty path is refused |
| EntityErrors.ProjectFileRefused | src/entity_ref.rs:578-587 | other than four fields are a bad shape; of four, the first empty one of the first three is reported, then a last one that is no number |
| EntityErrors.ProjectFileV2Refused | src/entity_ref.rs:589-602 | the same with five fields |
| EntityErrors.SessionRefused | src/entity_ref.rs:604-610 | without a colon the session id is missing; else an empty provider or session id is reported |
| EntityErrors.SymbolRefused | src/entity_ref.rs:612-621 | of a symbol with two colons or more the first empty field is reported |
| EntityErrors.SymbolMissing | src/entity_ref.rs:612-621 | with fewer, it is the qualified name or the definition hash that is missing |
| EntityErrors.SymbolV2Refused | src/entity_ref.rs:623-640 | of a symbol in a snapshot with three colons or more the first empty field is reported |
| EntityErrors.SymbolV2Missing | src/entity_ref.rs:623-640 | with fewer, it is the snapshot, the qualified name or the definition hash that is missing |
| EntityErrors.CommitRefused | src/entity_ref.rs:642-648 | other than two fields are a bad shape; of two, the first empty one is reported |
| EntityErrors.BashCallRefused | src/entity_ref.rs:650-656 | without a colon the turn is missing; else an empty session or a turn that is no number is reported |
| EntityErrors.AgentRefused | src/entity_ref.rs:658-669 | behind the last `@v` a text that is no number is refused, and an empty name before it |
| EntityErrors.AgentMalformed | src/entity_ref.rs:658-669 | a colon and a missing at sign are bad shapes, the empty text an empty field |
| EntityErrors.PacketRefused | src/entity_ref.rs:671-680 | a selector that starts with neither `domain:` nor `packet-` is a bad shape, an empty one an empty field |
| EntityErrors.ArtifactRefused | src/entity_ref.rs:682-713 | without a slash the name is missing; else an empty kind, an unknown one and an empty name are reported in that order |
| EntityErrors.ArtifactVersionRefused | src/entity_ref.rs:682-713 | behind the last at sign an empty version and a bare `v` are refused, but an empty name is reported first |
| EntityRefLaws.RendersExactly | src/entity_ref.rs:286-368 | everything renders but transcripts and sessions whose provider is empty or holds a colon, and agents without a name, with a colon in it or with version 0 |
| EntityRefLaws.InvalidShown | src/entity_ref.rs:424-437 | what is shown for a transcript, a session and an agent that do not render |
| EntityRefLaws.PaddingIgnored | src/entity_ref.rs:222-232 | white space around a reference does not matter |
| Text.WhitespaceExactly | src/entity_ref.rs:222-232 | white space is the 25 characters with that Unicode property |
| ArtifactRefs.KindsAgree | src/entity_ref.rs:691-697 | the kinds a reference may name are exactly the kinds of the catalog |
| ArtifactRefs.ArtifactParses | src/entity_ref.rs:682-739 | for every kind, each non-empty name without an at sign or trailing white space parses as that artifact |
| ArtifactRefs.VersionParses | src/entity_ref.rs:682-739 | so it does with a version that does not start with `v`, whatever at signs the name holds |
| Levenshtein.Levenshtein | src/entity_ref.rs:843-857 | the loop over two swapped rows returns the recursive edit distance |
| Levenshtein.DistSymmetric | src/entity_ref.rs:843-857 | the distance is symmetric |
| Levenshtein.DistZero | src/entity_ref.rs:843-857 | it is zero for equal strings only |
| Levenshtein.DistTriangle | src/entity_ref.rs:843-857 | it obeys the triangle inequality |
| Levenshtein.ScriptNoShorter | src/entity_ref.rs:843-857 | no edit script is shorter than the distance |
| Levenshtein.BestScriptWorks | src/entity_ref.rs:843-857 | some edit script has just that length |
| Levenshtein.ClosestType | src/entity_ref.rs:826-841 | the suggestion is the first type, in the order of the declaration, whose name is nearest in bytes, and there is none exactly when every name is more than 3 edits away; a name spelled right is suggested itself, and one edit from a name there is a suggestion |
| Levenshtein.SuggestsUnique | src/entity_ref.rs:826-841 | one type at most is such a suggestion |
| EdgeIndexes.EdgeIndex.Insert | src/edge_index.rs:295-331 | an edge with a new key is appended and enters all four indexes and the key set, any other is dropped |
| EdgeIndexes.EdgeIndex.FromEdges | src/edge_index.rs:334-342 | inserting a batch into an empty index leaves the first edge of every key, in order, and a key set that agrees |
| EdgeIndexes.EdgeIndex.ForwardEdges | src/edge_index.rs:180-190 | the lookup by source equals the in-order scan |
| EdgeIndexes.EdgeIndex.ReverseEdges | src/edge_index.rs:192-202 | the lookup by target equals the in-order scan |
| EdgeIndexes.EdgeIndex.EdgesWithAnchorCommit | src/edge_index.rs:269-280 | the lookup by anchored commit equals the in-order scan |
| EdgeIndexes.EdgeIndex.SessionToolCallEdges | src/edge_index.rs:282-293 | the lookup of a session's tool calls equals the in-order scan |
| EdgeLookups.SessionFound | src/edge_index.rs:282-331 | the tool calls of a session are the edits, reads and shell commands of its transcripts, in the order inserted |
| EdgeLookups.AnchorFound | src/edge_index.rs:269-313 | the edges found by commit are the edits whose metadata anchors them there, in the order inserted |
| EdgeLookups.EndpointFound | src/edge_index.rs:180-202 | the edges found by source and by target are those with it, in the order inserted |
| EdgeIndexes.EdgeIndex.KnownRefs | src/edge_index.rs:223-230 | the known references are exactly the endpoints |
| EdgeIndexes.InsertRun | src/edge_index.rs:295-331 | any run of inserts keeps the first occurrence of every key; no two edges share one and the keys are those of the batch |
| EdgeIndexes.FirstMetadataWins | src/edge_index.rs:295-331 | the edge kept for a key is the first inserted, with its metadata |
| EdgeIndexes.InsertAllFresh | src/edge_index.rs:295-331 | inserting a batch into any index appends the edges with new keys, in order, and adds the keys of the batch |
| EdgeIndexes.SelectIds | src/edge_index.rs:180-202 | selecting the indexed positions of a query is scanning for it |
| EdgeIndexes.MetadataDependsOnOrder | src/edge_index.rs:295-331 | a batch leaves the same edges in every order exactly when its edges with equal keys are equal |
| EdgeIndexes.FileOrderExactly | src/edge_index.rs:677-738 | a set of files leaves the same edges in whatever order they are read exactly when no two of them keep different edges under a key that is new |
| EdgeIndexes.EdgeIndex.InsertSidecarEdge | src/edge_index.rs:732-738 | a sidecar edge and then its projection are inserted, and the key set gains their keys |
| EdgeIndexes.EdgeIndex.LoadLine | src/edge_index.rs:703-730 | a line that its file's mode lets through inserts its edge and the projection, any other nothing |
| EdgeIndexes.EdgeIndex.LoadFile | src/edge_index.rs:703-730 | a file inserts the edges of its lines in order, and the key set gains their keys |
| EdgeIndexes.EdgeIndex.LoadFolder | src/edge_index.rs:677-701 | the registered files of a folder are read in some order, each inserting its edges; the keys gained do not depend on it |
| EdgeIndexes.EdgeIndex.LoadLane | src/edge_index.rs:628-676 | a lane inserts the edges of its own files and of those of its namespaces |
| EdgeIndexes.EdgeIndex.LoadFallback | src/edge_index.rs:628-676 | without a manifest, root, derived and explicit lanes are read, and the observed lane on request, and their edges inserted |
| EdgeIndexes.EdgeIndex.LoadLegacyExplicit | src/edge_index.rs:793-852 | beside a manifest, migrated projects are read from their lanes and the others from the root, and their edges inserted |
| EdgeIndexes.EdgeIndex.LoadMigrated | src/edge_index.rs:793-852 | the edges of the migrated and registered projects are inserted from their lanes |
| EdgeIndexes.EdgeIndex.LoadProjectLanes | src/edge_index.rs:793-852 | the edges of one project's file in each lane are inserted, those of the observed one on request |
| EdgeIndexes.EdgeIndex.LoadOneLane | src/edge_index.rs:793-852 | the edges of one project's file in one lane are inserted, if there is one |
| EdgeIndexes.EdgeIndex.LoadManifestActivePaths | src/edge_index.rs:740-791 | the paths of a manifest are read in its order with the rule each asks for, and their edges inserted |
| EdgeIndexes.EdgeIndex.LoadSidecarEdges | src/edge_index.rs:136-177 | the edges of exactly the files to be read are inserted, in some order of them, and the key set gains the same keys in any order |
| EdgeIndexes.EdgeIndex.Rebuild | src/edge_index.rs:100-134 | a rebuilt index holds the first edge of every key, with its metadata, from the projected edges followed by those of the files read; it is indexed and its key set is closed under projection |
| EdgeIndexes.LoadedFrom | src/edge_index.rs:703-738 | every edge that loading adds is the edge of a kept line of a file read, or its projection |
| LoadingPlaces.GivenExactly | src/edge_index.rs:136-177 | whatever order files are read in, the edges offered to the index are exactly those that some place gives: the edge or session edge of a line that counts in a file that is read |
| LoadingPlaces.LoadedWhere | src/edge_index.rs:628-700 | every edge that loading adds comes from such a place; one from the root file of a project that some namespace of the derived lane has comes from no line that reads as derived |
| LoadingPlaces.RootDerivedKept | src/edge_index.rs:904-928 | every line of any other registered root file is loaded, derived ones included |
| LoadingPlaces.KeysLoadedExactly | src/edge_index.rs:136-177 | the keys of the index after loading are those it had and those of the edges that some place gives |
| LoadingPlaces.RebuiltWhere | src/edge_index.rs:100-134 | the edges of a rebuilt index are projected ones or given by some place, under all the keys of both |
| EdgeIndexes.RebuiltKeysClosed | src/edge_index.rs:1201-1224 | every transcript edit in the key set has its session projection there too |
| EdgeLoading.SourcesKeysClosed | src/edge_index.rs:732-738 | the keys of any set of files are closed under projection |
| EdgeLoading.ProjectionHasKey | src/edge_index.rs:1201-1224 | whether an edge is projected, and to which key, depends on its own key only, and a projection is not projected again |
| EdgeLoading.ObservedAddsExactly | src/edge_index.rs:628-676 | loading with observed lanes gives the keys without them plus those of the observed files |
| EdgeLoading.ObservedDifference | src/edge_index.rs:628-676 | a key gained that way comes from a line of an observed file or is its projection |
| EdgeLines.FastPathExact | src/edge_index.rs:1251-1262 | on every line printed for an edge the textual test says derived exactly when the edge is derived and no printed string hides the key |
| EdgeLines.FastPathMisses | src/edge_index.rs:1251-1262 | an edge of kind `provenance` is missed |
| EdgeLines.SearchEdge | src/edge_index.rs:1251-1262 | when no printed string hides the key, the search for the quoted word finds the provenance member and its value; when one does, it stops where no value can follow |
| Edges.FiledExactly | src/edge_index.rs:1390-1398 | an edge is filed under its source if that is a project file, and else under its target if that is one |
| EdgeLines.TextReadBack | src/edge_index.rs:1054-1055 | a string printed into a line is read back as it was, by the escapes of RFC 8259 |
| EdgeTexts.EdgePrinted | src/edge_index.rs:20-29 | the line printed for an edge is an object with these members in this order, the metadata only if there is some |
| KeyedMerge.CollectFresh | src/edge_index.rs:1470-1511 | the loop over a mutable key set appends the elements with a new key |
| KeyedMerge.FreshKeys | src/edge_index.rs:1470-1511 | what is appended carries exactly the new keys |
| KeyedMerge.FreshDistinct | src/edge_index.rs:1470-1511 | each of them once |
| KeyedMerge.OrderIrrelevant | src/edge_index.rs:295-331 | the order of a batch is irrelevant to the elements kept exactly when keys determine the elements |
| KeyedMerge.PartOrderIrrelevant | src/edge_index.rs:677-701 | the order of the parts is irrelevant exactly when they agree on what they keep under every new key |
| ManagedSidecars.ManagedStore.ReplaceProjectEdges | src/edge_index.rs:973-1013 | replacing writes the edges and touches no other file |
| ManagedSidecars.ManagedStore.ReplaceIncremental | src/edge_index.rs:1400-1433 | the result is the old edges not filed under a path hash of the batch, in order, then the new ones; an empty batch changes nothing |
| SidecarRewrites.ReplacedExactly | src/edge_index.rs:1373-1433 | what an incremental replacement leaves: the old edges filed under no file of the batch, in order and without metadata, and then the batch |
| ManagedSidecars.ManagedStore.PurgeForPathHashes | src/edge_index.rs:1441-1468 | exactly the edges filed under a stale path go, the count is their number, and nothing is written when there are none |
| SidecarRewrites.PurgedExactly | src/edge_index.rs:1390-1468 | what a purge leaves are the edges not filed under a stale file, without metadata, and it drops the others |
| ManagedSidecars.ManagedStore.MergeEdges | src/edge_index.rs:1470-1511 | the existing edges stay and those with new import keys are appended |
| SidecarRewrites.MergedExactly | src/edge_index.rs:1470-1511 | a merge leaves every old edge without its metadata and then the edges of the batch with a new key |
| SidecarRewrites.ImportKeyExactly | src/edge_index.rs:1187-1199 | the key is source, kind, target and the commit of the anchor, if there is one, with NULs between |
| ManagedSidecars.RelPathHashesOf | src/edge_index.rs:1373-1388 | the hashes collected are those of the project files at either end of an edge |
| ManagedSidecars.HashesDetermined | src/edge_index.rs:1373-1388 | the batch determines them |
| ManagedSidecars.ReplayForm | src/edge_index.rs:1400-1433 | after any number of replays: the kept edges, one copy of the file-less edges for every replay after the first, the batch |
| ManagedSidecars.ReplayUnchanged | src/edge_index.rs:1400-1433 | replaying a batch changes nothing exactly when each of its edges has a project file |
| ManagedSidecars.ReplayGrowth | src/edge_index.rs:1400-1433 | every replay adds the number of file-less edges while the set of edges stays the same |
| ManagedSidecars.PurgeCompleteness | src/edge_index.rs:1390-1398 | no edge that mentions a stale path survives exactly when none leads from a fresh file to a stale one; edges without a project file are never dropped |
| ManagedSidecars.PurgeWitness | src/edge_index.rs:1390-1398 | an edge from a fresh file to a stale one survives |
| ManagedSidecars.ImportKeyInjective | src/edge_index.rs:1187-1199 | import-key preimages of NUL-free well-formed edges are equal exactly when source, kind, target and commit anchor are |
| ManagedSidecars.MergeShape | src/edge_index.rs:1470-1511 | existing edges are a prefix, the appended keys are new and pairwise distinct |
| ManagedSidecars.MergeAgainExactly | src/edge_index.rs:1470-1511 | merging a batch again changes nothing exactly when every import key of the batch that the sidecar holds is still there after a rewrite |
| ManagedSidecars.MergeAgain | src/edge_index.rs:1470-1511 | so it does in a managed sidecar, and with well-formed references without NUL bytes |
| ManagedSidecars.MergeTwice | src/edge_index.rs:1470-1511 | merging two batches in turn is merging their concatenation exactly when they see the same keys of the second batch |
| ManagedSidecars.MergeTwiceManaged | src/edge_index.rs:1470-1511 | in a managed sidecar it always is |
| ManagedSidecars.MergeTwiceWitness | src/edge_index.rs:1470-1511 | with an anchored edge in the sidecar it may not be |
| ManagedSidecars.ReadWrite | src/edge_index.rs:1345-1371 | reading what was written gives the edges back |
| SidecarRewrites.LineRead | src/edge_index.rs:1345-1371 | of every line that parses and is not blank, reading takes the edge, in order |
| SidecarRewrites.LineSeen | src/edge_index.rs:1029-1047 | the keys an append compares with are those of all lines that parse |
| ManagedSidecars.AppendDedup | src/edge_index.rs:1029-1059 | appending leaves the file a prefix and writes the edges with new import keys |
| ManagedSidecars.AppendAgain | src/edge_index.rs:1029-1059 | appending the same batch again writes nothing |
| Compaction.Directory.CompactLegacySidecar | src/edge_index.rs:1078-1185 | the result is the lines that are neither blank nor derived, in order, with counters that count them; it is complete exactly when no operation fails and every line is text; every state on the way holds the original text in place or in the backup |
| Compaction.Directory.ScanLines | src/edge_index.rs:1129-1161 | the read loop counts every line and writes the retained ones |
| Compaction.Directory.ScanLine | src/edge_index.rs:1129-1161 | one line is counted and written if it is retained, and the loop ends at a line that is no text or cannot be written |
| Compaction.Directory.Publish | src/edge_index.rs:1163-1181 | the two renames leave the backup and the new file, or keep the original somewhere |
| Compaction.CountersAddUp | src/edge_index.rs:1129-1161 | seen = retained + derived + blank and retained = explicit + malformed |
| Compaction.StatsAddUp | src/edge_index.rs:1129-1161 | so say the counters returned; the bytes counted are those of the lines retained |
| Compaction.CompactedAgain | src/edge_index.rs:1078-1185 | the written file reads back as the retained lines short of a trailing carriage return, and a second compaction removes nothing exactly when none of them turns blank or derived by that |
| Compaction.SecondRemovesNothing | src/edge_index.rs:1129-1168 | with a classifier to which trailing carriage returns mean nothing, a second compaction removes nothing |
| ByteLines.LinesEncode | src/edge_index.rs:1130-1160 | writing lines and reading them back drops one carriage return from each |
| CanonicalJson.CanonicalTwice | src/artifacts.rs:1226-1238 | canonicalising is idempotent |
| CanonicalJson.CanonicalEqual | src/artifacts.rs:1217-1238 | two values have equal canonical forms exactly when they differ only in the order of object members at any depth |
| CanonicalJson.CollectSorted | src/artifacts.rs:1228-1234 | collecting members into an ordered map sorts them strictly by key and keeps each |
| ArtifactPaths.CollisionExactly | src/artifacts.rs:1132-1182 | two files of accepted names and versions share a path exactly when they are the same or clash in one of three ways |
| ArtifactPaths.PathsApart | src/artifacts.rs:649-760 | with unreserved names and versions the artifact, metadata and version paths never coincide |
| ArtifactPaths.DirectoryHolds | src/artifacts.rs:503-539 | for every file the checks allow, the directory that removing a name other than `m/.versions` deletes holds it exactly when it belongs to that artifact or one below it |
| ArtifactPaths.DirectoryContents | src/artifacts.rs:503-539 | what lies in the directory of any name: the files of that artifact and of those below it, and the snapshots of `m` when the name is `m/.versions` |
| ArtifactPaths.DirectoryHoldsExactly | src/artifacts.rs:503-539 | that holds for all files exactly when the name is not `m/.versions` for an accepted name `m` |
| ArtifactPaths.WalkRecognises | src/artifacts.rs:878-892 | file names tell the two kinds of metadata apart from all other files |
| ArtifactPaths.BesideIsOwn | src/artifacts.rs:914-929 | backfilling derives the path of the same artifact or snapshot |
| ArtifactPaths.NamePath | src/artifacts.rs:1161-1173 | the path of a name has the suffix at its last part, and an invalid name is refused |
| CatalogLayout.NameAccepted | src/artifacts.rs:1132-1147 | a name is accepted exactly when it is not blank, has no backslash and no slash in front, and nothing between slashes is empty, a dot, two dots or ends in `.json` or `.metadata` |
| CatalogLayout.VersionAccepted | src/artifacts.rs:1149-1159 | snapshots are allowed of versions that are not blank, hold no slash or backslash and are neither a dot nor two |
| ArtifactPaths.NameDirPath | src/artifacts.rs:1175-1182 | the directory of a name is its parts, and an invalid name is refused |
| CatalogLayout.NamePathText | src/artifacts.rs:1161-1182 | as texts, the path of a name is the name with the suffix and its directory the name |
| CatalogLayout.KindsSpelled | src/artifacts.rs:26-37 | what the directories of the seven kinds are called |
| CatalogLayout.KindDirectory | src/artifacts.rs:160-168 | the directory of a kind lies at the root for global artifacts, and below the layer of the project for others |
| CatalogLayout.ArtifactPath | src/artifacts.rs:700-710 | the artifact lies there under its name |
| CatalogLayout.MetadataPath | src/artifacts.rs:712-723 | its metadata lies in the directory of its name |
| CatalogLayout.SnapshotPath | src/artifacts.rs:725-748 | the snapshot of a version lies in `.versions` there |
| CatalogLayout.SnapshotMetadataPath | src/artifacts.rs:750-760 | and so does the snapshot of its metadata |
| ArtifactPaths.MetadataNameClashes | src/artifacts.rs:1132-1147 | for every accepted name `m` the name `m/metadata` is accepted and its artifact is the metadata file of `m` |
| ArtifactPaths.SnapshotNameClashes | src/artifacts.rs:1132-1147 | `m/.versions/v<version>` is accepted unless it ends in `.json` or `.metadata`, and its artifact is then that snapshot of `m` |
| ArtifactPaths.VersionsNameOwnsOthers | src/artifacts.rs:503-539 | `m/.versions` is accepted and removing it deletes the snapshots of `m` |
| ArtifactPaths.VersionClashes | src/artifacts.rs:1149-1159 | `<version>.metadata` is accepted and its snapshot is the metadata of `<version>` |
| ArtifactCatalog.RunCoherent | src/artifacts.rs:279-347 | after every run of admissible operations active metadata equals the snapshot metadata of its version, the active value equals that snapshot, and every stored hash is the hash of its value; all slots stay good |
| ArtifactCatalog.StepCoherent | src/artifacts.rs:541-553 | each operation keeps that |
| ArtifactCatalog.StepGood | src/artifacts.rs:613-689 | each admissible operation writes files of good names and versions only |
| ArtifactCatalog.RunLinked | src/artifacts.rs:310-346 | after every run a record's chain ends with the artifact it superseded, and a record is active exactly when nothing superseded it |
| ArtifactCatalog.UpToDateExactly | src/artifacts.rs:297-308 | an installation is a no-op exactly when the active artifact has a hash and an equal value up to the order of members |
| ArtifactCatalog.ReinstallNothing | src/artifacts.rs:297-308 | installing an equal value again changes nothing |
| ArtifactCatalog.SupersedesGlobally | src/artifacts.rs:310-319 | a project's installation supersedes the global artifact and leaves the project's own of that name alone |
| ArtifactCatalog.InstallFrame | src/artifacts.rs:279-347 | no file of another artifact changes but the metadata of the superseded one |
| Installations.NameAskedFor | src/artifacts.rs:1104-1114 | the name is the one given, or else the text of `name` in the value, of `domain` for packets |
| Installations.VersionAskedFor | src/artifacts.rs:1116-1122 | the version is the one given, or else a `version` in the value that is a number or a text that is not blank |
| Installations.PreviousAskedFor | src/artifacts.rs:1124-1130 | what is superseded is the artifact given, or else a `supersedes` in the value that is a text and not blank |
| Installations.RecordInstalled | src/artifacts.rs:321-346 | on any disk the record read back after an installation has the name, version, source, time, scope and predecessor of the request and the hash of the value, and is active, without warnings and superseded by nothing |
| Installations.ChainInstalled | src/artifacts.rs:310-319 | its chain is that of the global artifact superseded, if that has a record, and then its name; empty when nothing is superseded |
| Installations.ChainOfRun | src/artifacts.rs:310-346 | in a run of installations, each superseding the one before, every chain names all artifacts before it, oldest first |
| CatalogRecords.InstallRecords | src/artifacts.rs:310-346 | of the records under all other names an installation changes the global one it supersedes, which becomes inactive |
| CatalogRecords.InstallValues | src/artifacts.rs:340-346 | the value installed is on disk as the artifact and as the snapshot of its version |
| ArtifactCatalog.BackfilledCoherent | src/artifacts.rs:878-976 | backfilling a coherent catalog leaves every record with a hash and the catalog coherent |
| ArtifactCatalog.BackfilledTwice | src/artifacts.rs:878-976 | a second backfill changes nothing |
| ArtifactDisk.ReadStored | src/artifacts.rs:649-689 | reading at a path is reading the slot, for the files of good names and versions and for metadata under every accepted name |
| ArtifactDisk.WriteStored | src/artifacts.rs:636-647 | writing at the path of a good slot changes that slot and nothing else, and keeps all slots good |
| ArtifactDisk.ReadIsLoad | src/artifacts.rs:649-689 | the lookup of a record at its path, with the check on its name, is the lookup of the slot |
| ArtifactDisk.RemoveStored | src/artifacts.rs:503-539 | for removable names, deleting the file and the directory removes just the slots of that artifact and of those below it |
| ArtifactDisk.RemovalExactly | src/artifacts.rs:503-539 | for an accepted name, removal at its paths is removal of its slots in every catalog exactly when the name is removable: not `m/.versions`, `m/metadata` or `m/.versions/v<version>` for good `m` and `version` |
| ArtifactDisk.WalkStored | src/artifacts.rs:878-929 | a walk finds exactly the metadata slots, and beside each the value it belongs to |
| ArtifactDisk.FoundRecord | src/artifacts.rs:811-853 | the record found at a metadata path is the one of its own scope, kind and name |
| ArtifactDisk.ValidValues | src/artifacts.rs:914-929 | in a catalog that holds coherent files no walk misses a value |
| ArtifactDisk.StepStored | src/artifacts.rs:207-347 | one admissible operation on the disk does to the files what the slot operation does, and coherence and good slots stay |
| ArtifactDisk.RunStored | src/artifacts.rs:207-539 | so does every run of admissible operations: the disk holds exactly the coherent store that the slot operations lead to |
| ArtifactDisk.Catalog.InstallValue | src/artifacts.rs:207-237 | on any disk an accepted request does the whole installation and returns an active record with the hash of its value, any other changes nothing; an admissible one keeps the catalog coherent, with that record in place |
| ArtifactDisk.Catalog.InstallLocked | src/artifacts.rs:279-347 | an accepted request that is not up to date marks what it supersedes and writes the four files at their paths; a current value is left as it is, any other request changes nothing |
| ArtifactDisk.Catalog.MarkPrevious | src/artifacts.rs:310-319 | the chain is that of the global predecessor followed by its name, and the predecessor is marked superseded |
| ArtifactDisk.Catalog.MarkSuperseded | src/artifacts.rs:541-553 | a global record becomes inactive, in both places, or nothing changes when it is missing or its name is not accepted |
| ArtifactDisk.Catalog.SupersedeArtifact | src/artifacts.rs:460-483 | superseding needs both artifacts and marks the first; for any names a coherent catalog stays so |
| CatalogRecords.SupersedeRecords | src/artifacts.rs:460-483 | under every scope, kind and name: superseding makes the global record of that name inactive when the successor has a record, and changes no other |
| ArtifactDisk.Catalog.RemoveHard | src/artifacts.rs:485-539 | a confirmed removal of an accepted name deletes its file and directory, whatever lies there; a dry run, an unconfirmed call, an unknown or refused name delete nothing; a removable name keeps the catalog coherent |
| CatalogRecords.RemoveRecords | src/artifacts.rs:503-539 | removing a name leaves no global record of that kind under it or under a name below it, and all others as they were |
| ArtifactDisk.Catalog.UpdateInstallWarnings | src/artifacts.rs:613-627 | the warnings change in the active record and its version; for any name a coherent catalog stays so |
| CatalogRecords.WarnRecords | src/artifacts.rs:613-627 | the record of that name has the new warnings, all others are as they were |
| ArtifactDisk.Catalog.Rewarn | src/artifacts.rs:613-627 | the global record found is saved with the new warnings in both places |
| ArtifactDisk.Catalog.MarkRemovedBySource | src/artifacts.rs:811-853 | in whatever order the walk lists the files, the record marked is an active one from that source, none is marked only when there is none, and a refused name in the record is the only error |
| CatalogRecords.FileGoneRecords | src/artifacts.rs:832-850 | an active record whose file is gone becomes inactive, superseded by `file_removed`, all others are as they were |
| ArtifactDisk.Catalog.MarkGone | src/artifacts.rs:838-847 | the record becomes inactive, in both places |
| ArtifactDisk.Catalog.WriteFiles | src/artifacts.rs:321-346 | an installation writes the artifact, its metadata and the snapshot of both |
| ArtifactDisk.Catalog.SaveBoth | src/artifacts.rs:636-647 | a record is written as the active one and at its version |
| ArtifactDisk.Catalog.BackfillContentHashes | src/artifacts.rs:868-976 | in whatever order files are walked the disk ends the same; the counters count the records that lacked a hash and the values missing, of which a coherent catalog has none |
| CatalogRecords.BackfillRecords | src/artifacts.rs:868-976 | every record without a hash gets that of the artifact of its name, all others are as they were |
| ArtifactDisk.Catalog.BackfillInDir | src/artifacts.rs:878-976 | a walk over all files gives each record without a hash that of the value beside it, and counts those and the values missing |
| ArtifactDisk.Catalog.BackfillFile | src/artifacts.rs:893-974 | one record without a hash gets that of the value beside it, and is counted |
| SseStream.ReadStream | src/cli.rs:1382-1401 | the payloads printed depend on the bytes of the stream alone, not on their chunks; the frames cut off and the rest kept are those of the specification |
| SsePayloads.DataPrinted | src/cli.rs:1391-1397 | behind whole lines, a line `data: ` with any text and a blank line, ended by newlines or CRLFs, prints that text |
| SsePayloads.BareDataPrinted | src/cli.rs:1391-1397 | without the space behind the colon it prints the text short of the white space it starts with |
| SsePayloads.OtherPrinted | src/cli.rs:1391-1397 | a line that does not start with `data:` prints nothing |
| SsePayloads.EventsPrinted | src/cli.rs:1384-1401 | what follows a finished event is printed behind it |
| Utf8Text.LossyEncoded | src/cli.rs:1390 | decoding the UTF-8 of any text gives the text |
| Utf8Text.BadLengthExactly | src/cli.rs:1390 | bytes that are no character are replaced together for as long as they begin one |
| SseStream.FindSseSeparator | src/cli.rs:1403-1417 | the first pair of newlines, else the first pair of CRLFs, else none |
| SseSchedules.SeparatorIs | src/cli.rs:1403-1417 | the position specified is that of the first pair of newlines, or without any, of the first pair of CRLFs |
| SseStream.OutputConcat | src/cli.rs:1388-1398 | behind a line end, the payloads of a text are those of its parts |
| SseStream.FinalCutPrints | src/cli.rs:1382-1401 | wherever a reader has cut last, with no separator left behind, it has printed the payloads up to the stream's last separator |
| SseStream.FinalCutNear | src/cli.rs:1403-1417 | such a cut is at most one blank line before the stream's last separator ends |
| SseSchedules.FramedFrames | src/cli.rs:1382-1401 | whatever the chunks, each frame ends with a separator and holds no other that would have been cut first, no byte is lost and no separator is left |
| SseSchedules.FramesAgreeExactly | src/cli.rs:1382-1417 | every schedule of chunks cuts the stream into the same frames exactly when no pair of CRLFs comes before a pair of newlines |
| SseSchedules.FramedAsOne | src/cli.rs:1382-1417 | such a stream is cut as if it had arrived at once |
| SseSchedules.RestsAgreeExactly | src/cli.rs:1382-1417 | every schedule of chunks leaves the same bytes in the buffer exactly when the stream does not end in an even positive number of CRLFs with none in front of them, at least one newline, and a rest that begins with no newline and holds no separator |
| SseSchedules.FramesDiffer | src/cli.rs:1403-1417 | five bytes with mixed terminators, arriving at once or the last one alone, are cut into different frames |
| SseStream.StreamReader.OnChunk | src/cli.rs:1384-1401 | a chunk is appended and all frames are cut off in turn, as the specification of draining says; no separator is left and no byte lost |
| SseStream.StreamReader.DrainFrame | src/cli.rs:1388-1398 | one frame leaves the buffer and its payloads are printed |
| TailCursor.Lane.SeedJsonl | src/cli.rs:770-789 | seeding shows the last 50 events of the last 150 lines and sets the offset to the end; unreadable text marks the lane |
| TailCursor.SeededLine | src/cli.rs:770-789 | a seeded line shows the last 50 events of its text short of the newline and one carriage return |
| TailCursor.SeededLines | src/cli.rs:770-789 | of a file the last 150 lines are seeded, and the last 50 of their events |
| TailCursor.Lane.PollJsonl | src/cli.rs:834-875 | a poll reads the complete lines behind the offset up to the first that is not UTF-8 and keeps the last 2000 events; the offset moves exactly when the file is longer than it and a complete readable line follows, so a file replaced by a shorter one is not read and the reset branch is unreachable |
| TailCursor.ReadAvailable | src/cli.rs:850-872 | the read loop takes exactly the complete readable lines |
| TailCursor.ReadLine | src/cli.rs:852-871 | a line ends at the next newline or the end of the file, or is not text |
| TailCursor.PolledLine | src/cli.rs:850-872 | a polled line shows the events of its text short of the newline and every carriage return before it |
| TailCursor.ReadAlike | src/cli.rs:770-872 | seeding and polling read a line alike exactly when it does not end in two carriage returns and a newline, nor in a carriage return |
| TailCursor.Lane.CapEvents | src/cli.rs:915-921 | the last 2000 events are kept |
| TailCursor.EverySchedule | src/cli.rs:834-875 | for every append-only growth and poll schedule the offset is behind complete lines, each line read was read once, and the events are the last 2000 |
| TailCursor.EveryScheduleAgrees | src/cli.rs:834-875 | a poll that sees the whole file leaves what the file determines, whatever was polled before |
| TailCursor.EveryLineRead | src/cli.rs:850-872 | all complete lines of a growth are read exactly when each of them is valid UTF-8 |
| TailCursor.BadLineStops | src/cli.rs:850-872 | behind a complete line that is not text no later poll reads anything, whatever is appended |
| TailCursor.SeedBoundary | src/cli.rs:770-776 | seeding and polling cut every growth at its own line ends exactly when the seeded text was empty or ended with a newline |
| GrowingFile.ScheduleIndependent | src/cli.rs:834-875 | the same for any rule that finds the first complete piece by looking at it alone |
| Chopping.ChopConcat | src/cli.rs:852-871 | behind pieces cut off completely, cutting starts afresh |
| CronAdmission.CronRegistry.TryClaim | src/crons.rs:130-144 | a claim below the cap takes a slot, any other changes nothing |
| CronAdmission.CronRegistry.MarkDone | src/crons.rs:146-151 | a slot is given back, never below zero |
| CronAdmission.CronRegistry.Remove | src/crons.rs:106-112 | a removal forgets the slots in use |
| CronAdmission.CronRegistry.SettleDispatch | src/crons.rs:322-330 | a slot is given back only after a dispatch that succeeded without an arc |
| CronAdmission.CronRegistry.RunOneTick | src/crons.rs:284-332 | a tick keeps its slot unless the dispatch succeeds without an arc |
| CronAdmission.UncappedTick | src/crons.rs:130-136 | without a cap every tick fires; the counter saturates, and no other cron is touched |
| CronAdmission.DefaultCap | src/crons.rs:75-77 | a cron without a configured cap fires only when it has no slot in use |
| CronAdmission.RunInvariant | src/crons.rs:106-151 | every run keeps the slot accounting, with and without removals |
| CronAdmission.Conservation | src/crons.rs:162-332 | without removals, slots in use = live arcs + dispatches in progress + failed and aborted dispatches, and at most the cap |
| CronAdmission.LiveArcsBounded | src/crons.rs:130-151 | without removals, live arcs and failed and aborted dispatches together never exceed the cap |
| CronAdmission.FiresAtRest | src/crons.rs:322-330 | an idle cron fires again exactly when fewer dispatches failed or were aborted than the cap |
| CronAdmission.Starved | src/crons.rs:322-330 | after as many failed and aborted dispatches as the cap no tick fires again |
| CronAdmission.CapWithRemovals | src/crons.rs:106-112 | in every run the slots held exceed the counter by at most those held at removals, and the counter keeps the cap |
| CronAdmission.LiveBoundExactly | src/crons.rs:106-151 | from any state whose counter keeps the cap, the least bound on the live arcs is the cap plus what the counter misses of the arcs and dispatches |
| CronAdmission.CapKeptExactly | src/crons.rs:106-151 | after any run, removals included, the live arcs keep to the cap from then on exactly when live arcs and dispatches in progress are at most the counter |
| CronAdmission.RemovalsUnbounded | src/crons.rs:106-144 | if more removals may follow, no bound on the live arcs holds, whatever the state |
| CronAdmission.RemoveExceedsCap | src/crons.rs:106-112 | a removal lets two arcs live under cap 1 |
| ThreadHash.PreimageInjective | src/embed_queue.rs:493-498 | the length-prefixed preimage is uniquely decodable |
| ThreadHash.FieldsInjective | src/embed_queue.rs:459-491 | the fields fed determine the scalars and the whole lists |
| ThreadHash.ThreadPreimageExact | src/embed_queue.rs:459-498 | two threads have equal preimages exactly when they agree on every hashed field, absent counting as empty |
| ThreadHash.HashedAlike | src/embed_queue.rs:459-491 | that is, in terms of the threads: ids, topics, projects and status are equal, names, kinds and handoff documents up to absent ones, and notes, sessions and edges one by one |
| ThreadHash.FormatTag | src/embed_queue.rs:461 | the first field fed is `thread-v1` |
| ThreadHash.ThreadChunkHash | src/embed_queue.rs:459-491 | the hasher is fed just that preimage |
| ThreadHash.HashNotes | src/embed_queue.rs:459-491 | a list is fed with its length before it |
| ThreadHash.Hasher.HashField | src/embed_queue.rs:493-498 | a field is fed with its length before it |
| TruncateMiddle.TruncateMiddle | src/embed_queue.rs:554-566 | the result is valid UTF-8 between three bytes below the limit and the limit, from a head and a tail that do not overlap |
| TruncateMiddle.MarkerText | src/embed_queue.rs:558 | the marker is the line `...[thread text truncated]...` between newlines |
| TruncateMiddle.FloorCharBoundary | src/embed_queue.rs:568-574 | the last boundary up to the index |
| TruncateMiddle.CeilCharBoundary | src/embed_queue.rs:576-582 | the first boundary from the index on |
| Utf8.BoundaryNear | src/embed_queue.rs:568-582 | a boundary is at most three bytes away on either side |
| Utf8.ValidCut | src/embed_queue.rs:554-566 | cutting valid text at a boundary leaves valid text |
| Utf8Text.ValidExactly | src/embed_queue.rs:554-582 | the valid byte strings are exactly the encodings of what they decode to |
| TableWidths.FitTableWidths | src/fleet_tui.rs:5140-5165 | it succeeds exactly when one cell per non-empty column fits, lands on the limit when it shrinks, and the result is a water level |
| TableWidths.PickWidest | src/fleet_tui.rs:5151-5156 | the column picked is the last of the widest that may shrink, and none only when all are minimal |
| TableWidths.ShrinkOnce | src/fleet_tui.rs:5150-5162 | one step takes one cell and keeps the water level |
| TableWidths.ShrinkStep | src/fleet_tui.rs:5146-5162 | taking one cell from the last widest column keeps the water level |
| TableWidths.FillIsLevel | src/fleet_tui.rs:5140-5165 | a shrunk column is at most one narrower than any other |
| TableWidths.FillUnique | src/fleet_tui.rs:5140-5165 | the level and the total determine every width |
| TableWidths.FillBounds | src/fleet_tui.rs:5140-5165 | no column grows and none vanishes |
| TableRender.TruncateDisplay | src/fleet_tui.rs:5093-5119 | the loop keeps the longest prefix that fits and marks the cut |
| TableRender.TruncatedWidth | src/fleet_tui.rs:5093-5119 | truncated text is no wider than asked but for the control characters it keeps |
| TableRender.TruncatedFits | src/fleet_tui.rs:5093-5119 | truncated text is no wider than asked exactly when its content does not overshoot: no start of a content that must be cut counts as less than the width and shows as at least that |
| TableRender.PadCellWidth | src/fleet_tui.rs:5121-5134 | a padded cell is never narrower than asked, and has just that width exactly when its content does not overshoot |
| TableLayout.CellAligned | src/fleet_tui.rs:5121-5134 | a cell that fits is moved in its column by spaces alone: none before it, none behind it, or as many on both sides with an odd one behind |
| TableLayout.CellCut | src/fleet_tui.rs:5093-5134 | a longer one keeps the longest start that counts as less than the column, followed by an ellipsis |
| TableRender.ControlWitness | src/fleet_tui.rs:5121-5134 | `n` control characters in a column of two cells show as `n + 1` |
| TableRender.GridWidth | src/fleet_tui.rs:5199-5256 | all rows and rules of a table have its computed width exactly when no cell overshoots its column |
| TableLayout.TableRules | src/fleet_tui.rs:5199-5256 | the first line, the third and the last are rules with their own corners and crossings |
| TableLayout.TableRows | src/fleet_tui.rs:5199-5256 | the second line is the header and the rows of the body follow the second rule in order |
| TableRender.DataRowWidth | src/fleet_tui.rs:5136-5138 | a row is as wide as the computed table width exactly when none of its cells overshoots, and never narrower |
| TableLayout.RowBoxes | src/fleet_tui.rs:5237-5247 | a row is a bar and then, column by column, a space, the padded cell, a space and a bar; missing cells are empty and missing alignments left |
| TableLayout.ColumnStarts | src/fleet_tui.rs:5237-5247 | when no cell overshoots, every column starts behind the widths before it and three cells for each |
| TableRender.RuleWidth | src/fleet_tui.rs:5136-5138 | a rule always is |
| TableLayout.RulePlaced | src/fleet_tui.rs:5228-5235 | over every column a rule has dashes for its width and margins, then a crossing or the last corner |
| TableRender.MeasureColumns | src/fleet_tui.rs:5199-5206 | a column is measured by its widest cell |
| TableLayout.WidestCell | src/fleet_tui.rs:5199-5206 | every cell fits the column measured, and the column is no wider than one of them |
| TableLayout.LongestRow | src/fleet_tui.rs:5186-5190 | there are as many columns as the longest row has cells |
| TableLayout.LeastLimit | src/fleet_tui.rs:5208-5219 | a limit of zero counts as one |
| TableRender.RenderTableBlock | src/fleet_tui.rs:5167-5256 | the table fits the limit exactly when it can, with the widths of the allocator, and its lines have one width exactly when no cell overshoots; otherwise its lines are truncated |

## Left out

- Real file, directory and lock calls: a store is a map with atomic single-file writes; operations on different artifacts that interleave, and partial writes of the catalog, are not modelled. `Compaction.Directory` models failing operations, with its buffered writer writing through.
- SHA-256 and hex encoding: hashes are compared as preimages (`ManagedSidecars.ImportKey`, `ThreadHash.Preimage`) or as the canonical value (`ArtifactCatalog.Meta.hash`).
- General JSON parsing: whether a line is an edge, and what kind of line compaction sees, are inputs. A file that does not end with a newline before an append is not modelled.
- ArtifactCatalog.RunCoherent: installations name artifacts, versions and projects for which `ArtifactPaths` shows that no files clash. Other versions, which installing does not check, and project ids that are no single path component are excluded with them.
- ArtifactDisk.RunStored: the runs are those of `ArtifactCatalog.RunCoherent`. `ArtifactDisk.Catalog` carries out every other request as well, without this promise, and does not resolve `.` or `..` in a path.
- ArtifactDisk.Catalog.InstallValue: a version that holds a slash, which installing does not check, is one path component here and several in the source (src/artifacts.rs:702-725).
- ArtifactDisk.Catalog.InstallLocked: the same versions with a slash.
- ArtifactDisk.Catalog.WriteFiles: the same versions with a slash.
- ArtifactDisk.Catalog.BackfillContentHashes: reads and writes that fail, which the source logs and skips, are not modelled; a path where a value is looked for does not hold metadata.
- ArtifactDisk.Catalog.BackfillInDir: as for `ArtifactDisk.Catalog.BackfillContentHashes`.
- EdgeIndexes.EdgeIndex.KnownRefs: the set is modelled, not its sorting by text.
- Listing, scoped loading and discovery of artifacts: they only read the catalog, or call the installation modelled here.
- CronAdmission.Conservation: a cap of 0, which sets no bound, is not covered, since the counter then saturates; `CronRegistry` covers it.
- TableRender.GridWidth: widths are per character, as the width crate gives them; sequences whose width depends on their context and the parsing of cells are not modelled.
- SseStream.ReadStream: what is printed for a payload is not modelled, only the payloads.
- TailCursor.Lane.PollJsonl: the transcript formats are an input that maps lines to events; the other provider's poller is left out.
- Texts of error messages and parse examples, other projections of `EdgeIndex::rebuild` (they enter as edges that have no projection), manifest contents (they enter as the list of paths with their rules).
- Wall-clock time, schedules and the cron expression parser; HTTP, git and terminal input and output.
