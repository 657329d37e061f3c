/**
 * The text of a sidecar line, and the textual test that stands in for parsing it
 * when derived edges are to be skipped (src/edge_index.rs).
 */
module EdgeLines {
  import opened Wrappers
  import opened Text
  import opened EntityRefs
  import opened Edges

  // ---- JSON printing, with the string escapes of section 7 of RFC 8259 ----

  function HexDigit(n: nat): char
    requires n < 16
  {
    "0123456789abcdef"[n]
  }

  function EscapeChar(c: char): string {
    if c == '"' then ['\\', '"']
    else if c == '\\' then ['\\', '\\']
    else if c == '\U{0008}' then "\\b"
    else if c == '\U{000C}' then "\\f"
    else if c == '\n' then "\\n"
    else if c == '\r' then "\\r"
    else if c == '\t' then "\\t"
    else if c < ' ' then "\\u00" + [HexDigit(c as int / 16), HexDigit(c as int % 16)]
    else [c]
  }

  // Printing appends to what comes after: `XOnto(x, rest)` is `x` printed in front of `rest`.

  function EscapeOnto(s: string, rest: string): string {
    if s == "" then rest else EscapeChar(s[0]) + EscapeOnto(s[1..], rest)
  }

  function QuoteOnto(s: string, rest: string): string {
    ['"'] + EscapeOnto(s, ['"'] + rest)
  }

  // ---- reading a printed string back, by the same section ----

  function HexValue(c: char): Option<nat> {
    if '0' <= c <= '9' then Some(c as int - '0' as int)
    else if 'a' <= c <= 'f' then Some(c as int - 'a' as int + 10)
    else None
  }

  /** The character that a string body starts with, and what follows it; none at the closing quote. */
  function ReadChar(s: string): Option<(char, string)> {
    if s == "" || s[0] == '"' then None
    else if s[0] != '\\' then Some((s[0], s[1..]))
    else if |s| < 2 then None
    else
      match s[1]
      case '"' => Some(('"', s[2..]))
      case '\\' => Some(('\\', s[2..]))
      case 'b' => Some((8 as char, s[2..]))
      case 'f' => Some((12 as char, s[2..]))
      case 'n' => Some((10 as char, s[2..]))
      case 'r' => Some((13 as char, s[2..]))
      case 't' => Some((9 as char, s[2..]))
      case 'u' => ReadLowCode(s[2..])
      case _ => None
  }

  /** Four hexadecimal digits, of which the first two are zero. */
  function ReadLowCode(s: string): Option<(char, string)> {
    if |s| < 4 || s[0] != '0' || s[1] != '0' then None
    else
      match (HexValue(s[2]), HexValue(s[3]))
      case (Some(high), Some(low)) => Some(((16 * high + low) as char, s[4..]))
      case _ => None
  }

  /** A string body up to its closing quote, and what follows that. */
  function ReadText(s: string): Option<(string, string)>
    decreases |s|
  {
    if s != "" && s[0] == '"' then Some(("", s[1..]))
    else
      match ReadChar(s)
      case None => None
      case Some((c, rest)) =>
        if |rest| >= |s| then None
        else
          match ReadText(rest)
          case None => None
          case Some((text, behind)) => Some(([c] + text, behind))
  }

  lemma HexRead(n: nat)
    requires n < 16
    ensures HexValue(HexDigit(n)) == Some(n)
  {
  }

  lemma CharReadBack(c: char, rest: string)
    ensures ReadChar(EscapeChar(c) + rest) == Some((c, rest))
    ensures (EscapeChar(c) + rest)[0] != '"' && |EscapeChar(c)| > 0
  {
    var s := EscapeChar(c) + rest;
    assert s[|EscapeChar(c)|..] == rest;
    if c < ' ' && |EscapeChar(c)| == 6 {
      HexRead(c as int / 16);
      HexRead(c as int % 16);
      assert s[2..] == s[2..6] + rest && s[2..][4..] == rest;
    }
  }

  /** A printed string is read back as it was. */
  lemma {:induction false} TextReadBack(s: string, rest: string)
    ensures ReadText(EscapeOnto(s, ['"'] + rest)) == Some((s, rest))
    decreases |s|
  {
    if s == "" {
      assert (['"'] + rest)[1..] == rest;
    } else {
      var tail := EscapeOnto(s[1..], ['"'] + rest);
      CharReadBack(s[0], tail);
      TextReadBack(s[1..], rest);
      assert [s[0]] + s[1..] == s;
    }
  }

  datatype Scalar = Str(text: string) | Num(n: nat) | Null

  function ScalarOnto(v: Scalar, rest: string): string {
    match v
    case Str(text) => QuoteOnto(text, rest)
    case Num(n) => ShowDecimal(n) + rest
    case Null => "null" + rest
  }

  /** `"key":value` pairs, separated by commas. */
  function FieldsOnto(fields: seq<(string, Scalar)>, rest: string): string {
    if fields == [] then rest
    else
      QuoteOnto(fields[0].0, [':'] + ScalarOnto(fields[0].1,
        if |fields| == 1 then rest else [','] + FieldsOnto(fields[1..], rest)))
  }

  /** A reference is printed as an object whose first member is its `type` tag. */
  function RefFields(r: EntityRef): seq<(string, Scalar)> {
    [("type", Str(TypeName(r.Type())))] +
    match r
    case Knowledge(id) => [("id", Str(id))]
    case Transcript(p, s, l, e) =>
      [("provider", Str(p)), ("session_id", Str(s)), ("line_offset", Num(l)), ("event_idx", Num(e))]
    case File(path) => [("path", Str(path))]
    case ProjectFile(p, h, c, o) =>
      [("project_id", Str(p)), ("rel_path_hash", Str(h)), ("chunk_hash", Str(c)),
       ("occurrence_idx", Num(o))]
    case ProjectFileV2(p, s, h, c, o) =>
      [("project_id", Str(p)), ("snapshot_id", Str(s)), ("rel_path_hash", Str(h)),
       ("chunk_hash", Str(c)), ("occurrence_idx", Num(o))]
    case Session(p, s) => [("provider", Str(p)), ("session_id", Str(s))]
    case Thread(id) => [("thread_id", Str(id))]
    case Note(id) => [("note_id", Str(id))]
    case Symbol(p, q, d) =>
      [("project_id", Str(p)), ("qualified_name", Str(q)), ("defn_hash", Str(d))]
    case SymbolV2(p, s, q, d) =>
      [("project_id", Str(p)), ("snapshot_id", Str(s)), ("qualified_name", Str(q)),
       ("defn_hash", Str(d))]
    case Brofile(name) => [("name", Str(name))]
    case Whiteboard(id) => [("board_id", Str(id))]
    case Commit(repo, sha) => [("repo_id", Str(repo)), ("sha", Str(sha))]
    case Task(id) => [("task_id", Str(id))]
    case BashCall(s, t) => [("session", Str(s)), ("turn", Num(t))]
    case Agent(name, v) => [("name", Str(name)), ("version", Num(v))]
    case Packet(sel) => [("selector", Str(sel))]
    case Artifact(k, n, v) =>
      [("kind", Str(k)), ("name", Str(n)), ("version", if v.Some? then Str(v.value) else Null)]
    case RoadmapItem(id) => [("id", Str(id))]
  }

  function ProvenanceName(p: Provenance): string {
    match p
    case Explicit => "explicit"
    case Derived => "derived"
    case Implicit => "implicit"
  }

  function ConfidenceName(c: Confidence): string {
    match c
    case Exact => "exact"
    case Heuristic => "heuristic"
    case Unknown => "unknown"
  }

  function MetadataFields(metadata: seq<(string, string)>): seq<(string, Scalar)> {
    seq(|metadata|, i requires 0 <= i < |metadata| => (metadata[i].0, Str(metadata[i].1)))
  }

  const PROVENANCE_KEY := ['"', 'p', 'r', 'o', 'v', 'e', 'n', 'a', 'n', 'c', 'e', '"']

  // The members of the object, from the last to the first.

  function FromMetadata(e: Edge): string {
    if e.metadata == [] then "}"
    else [','] + QuoteOnto("metadata", [':', '{'] + FieldsOnto(MetadataFields(e.metadata), "}}"))
  }

  function FromConfidence(e: Edge): string {
    [','] + QuoteOnto("confidence", [':'] + QuoteOnto(ConfidenceName(e.confidence), FromMetadata(e)))
  }

  function ProvenanceValue(e: Edge): string {
    QuoteOnto(ProvenanceName(e.provenance), FromConfidence(e))
  }

  function FromProvenance(e: Edge): string {
    ['}', ','] + (PROVENANCE_KEY + ([':'] + ProvenanceValue(e)))
  }

  function FromTarget(e: Edge): string {
    [','] + QuoteOnto("target", [':', '{'] + FieldsOnto(RefFields(e.target), FromProvenance(e)))
  }

  function FromKind(e: Edge): string {
    ['}', ','] + QuoteOnto("kind", [':'] + QuoteOnto(e.kind, FromTarget(e)))
  }

  /** The line the serialiser writes for an edge. */
  function PrintEdge(e: Edge): string {
    ['{'] + QuoteOnto("source", [':', '{'] + FieldsOnto(RefFields(e.source), FromKind(e)))
  }

  function LineOf(e: Edge): Line {
    Line(PrintEdge(e), Some(e))
  }

  // ---- the textual test ----

  /** The text after the first occurrence of `"provenance"`. */
  function AfterProvenanceKey(line: string): Option<string> {
    if PROVENANCE_KEY <= line then Some(line[|PROVENANCE_KEY|..])
    else if line == "" then None
    else AfterProvenanceKey(line[1..])
  }

  const DERIVED_VALUE := ['"', 'd', 'e', 'r', 'i', 'v', 'e', 'd', '"']

  predicate LineProvenanceIsDerived(line: string) {
    match AfterProvenanceKey(line)
    case None => false
    case Some(rest) =>
      var rest := TrimStart(rest);
      && rest != "" && rest[0] == ':'
      && DERIVED_VALUE <= TrimStart(rest[1..])
  }

  // ---- which strings hide the real key ----

  const WORD := ['p', 'r', 'o', 'v', 'e', 'n', 'a', 'n', 'c', 'e']

  predicate EndsQuoted(s: string) {
    |s| >= |WORD| + 1 && s[|s| - |WORD| - 1..] == ['"'] + WORD
  }

  /** A string value whose printed form contains `"provenance"`. */
  predicate Hides(s: string) {
    s == WORD || EndsQuoted(s)
  }

  predicate ScalarHides(v: Scalar) {
    v.Str? && Hides(v.text)
  }

  predicate FieldsHide(fields: seq<(string, Scalar)>) {
    exists i :: 0 <= i < |fields| && ScalarHides(fields[i].1)
  }

  predicate HidesKey(e: Edge) {
    FieldsHide(RefFields(e.source)) || Hides(e.kind) || FieldsHide(RefFields(e.target))
  }

  predicate Plain(w: string) {
    forall i :: 0 <= i < |w| ==> ' ' <= w[i] && w[i] != '"' && w[i] != '\\'
  }

  lemma SkipOne(c: char, rest: string)
    requires c != '"'
    ensures AfterProvenanceKey([c] + rest) == AfterProvenanceKey(rest)
  {
    var s := [c] + rest;
    assert s[0] == c && PROVENANCE_KEY[0] == '"';
    assert s[1..] == rest;
  }

  lemma SkipTwo(c: char, d: char, rest: string)
    requires c != '"' && d != '"'
    ensures AfterProvenanceKey([c, d] + rest) == AfterProvenanceKey(rest)
  {
    SkipOne(c, [d] + rest);
    SkipOne(d, rest);
    assert [c, d] + rest == [c] + ([d] + rest);
  }

  lemma {:induction false} SkipQuoteFree(x: string, rest: string)
    requires '"' !in x
    ensures AfterProvenanceKey(x + rest) == AfterProvenanceKey(rest)
    decreases |x|
  {
    if x == "" {
      assert x + rest == rest;
    } else {
      var tail := x[1..] + rest;
      assert x + rest == [x[0]] + tail;
      SkipOne(x[0], tail);
      SkipQuoteFree(x[1..], rest);
    }
  }

  lemma EscapeCharShape(c: char)
    ensures EscapeChar(c) != ""
    ensures if ' ' <= c && c != '"' && c != '\\' then EscapeChar(c) == [c]
            else EscapeChar(c)[0] == '\\'
    ensures c != '"' ==> '"' !in EscapeChar(c)
  {
  }

  lemma ConsPrefix(c: char, w: string, d: char, t: string)
    ensures [c] + w <= [d] + t <==> c == d && w <= t
  {
    assert ([c] + w)[1..] == w && ([d] + t)[1..] == t;
    if [c] + w <= [d] + t {
      assert ([c] + w)[0] == ([d] + t)[0];
      assert w == ([d] + t)[..|w| + 1][1..] == t[..|w|];
    }
  }

  /** In the printed form of `s`, a plain word is followed by the closing quote only if it is `s`. */
  lemma {:induction false} WordFillsString(w: string, s: string, rest: string)
    requires Plain(w)
    ensures w + ['"'] <= EscapeOnto(s, ['"'] + rest) <==> s == w
    decreases |w|
  {
    var text := EscapeOnto(s, ['"'] + rest);
    if s == "" {
      assert text[0] == '"';
      assert w != "" ==> (w + ['"'])[0] == w[0];
    } else {
      EscapeCharShape(s[0]);
      var tail := EscapeOnto(s[1..], ['"'] + rest);
      assert text[0] == EscapeChar(s[0])[0];
      if w == "" {
        assert (w + ['"'])[0] == '"';
      } else {
        var word := w[1..] + ['"'];
        assert w + ['"'] == [w[0]] + word;
        if EscapeChar(s[0]) == [s[0]] {
          ConsPrefix(w[0], word, s[0], tail);
          WordFillsString(w[1..], s[1..], rest);
          assert s == [s[0]] + s[1..] && w == [w[0]] + w[1..];
        } else {
          assert ([w[0]] + word)[0] != text[0];
        }
      }
    }
  }

  lemma KeyAtQuote(s: string, rest: string)
    ensures PROVENANCE_KEY <= QuoteOnto(s, rest) <==> s == WORD
  {
    WordFillsString(WORD, s, rest);
    assert PROVENANCE_KEY == ['"'] + (WORD + ['"']);
    ConsPrefix('"', WORD + ['"'], '"', EscapeOnto(s, ['"'] + rest));
  }

  lemma {:induction false} EscapePlain(w: string, rest: string)
    requires Plain(w)
    ensures EscapeOnto(w, rest) == w + rest
    decreases |w|
  {
    if w == "" {
      assert w + rest == rest;
    } else {
      EscapeCharShape(w[0]);
      EscapePlain(w[1..], rest);
      assert [w[0]] + (w[1..] + rest) == w + rest;
    }
  }

  lemma KeyFound(value: string)
    ensures AfterProvenanceKey(PROVENANCE_KEY + value) == Some(value)
  {
    var s := PROVENANCE_KEY + value;
    assert PROVENANCE_KEY <= s && s[|PROVENANCE_KEY|..] == value;
  }

  lemma WordPrinted(rest: string)
    ensures QuoteOnto(WORD, rest) == PROVENANCE_KEY + rest
  {
    EscapePlain(WORD, ['"'] + rest);
    assert PROVENANCE_KEY == ['"'] + WORD + ['"'];
  }

  /** What may follow a printed string value. */
  predicate Follows(rest: string) {
    rest != "" && rest[0] in {',', '}', ':'}
  }

  lemma ClosingQuote(rest: string)
    requires Follows(rest)
    ensures AfterProvenanceKey(['"'] + rest) == AfterProvenanceKey(rest)
  {
    assert (['"'] + rest)[1] == rest[0] && PROVENANCE_KEY[1] == 'p';
    assert (['"'] + rest)[1..] == rest;
  }

  /** Searching from inside a string value. */
  lemma {:induction false} SearchInside(s: string, rest: string)
    requires Follows(rest)
    ensures AfterProvenanceKey(EscapeOnto(s, ['"'] + rest))
         == if EndsQuoted(s) then Some(rest) else AfterProvenanceKey(rest)
    decreases |s|
  {
    if s == "" {
      ClosingQuote(rest);
    } else {
      EndsQuotedTail(s);
      SearchInside(s[1..], rest);
      if s[0] == '"' {
        SearchEscapedQuote(s[1..], rest);
        assert EscapeChar(s[0]) == ['\\', '"'];
      } else {
        EscapeCharShape(s[0]);
        SkipQuoteFree(EscapeChar(s[0]), EscapeOnto(s[1..], ['"'] + rest));
      }
    }
  }

  lemma SearchEscapedQuote(s: string, rest: string)
    requires Follows(rest)
    requires AfterProvenanceKey(EscapeOnto(s, ['"'] + rest))
          == if EndsQuoted(s) then Some(rest) else AfterProvenanceKey(rest)
    ensures AfterProvenanceKey(['\\', '"'] + EscapeOnto(s, ['"'] + rest))
         == if Hides(s) then Some(rest) else AfterProvenanceKey(rest)
  {
    SearchAtQuote(s, rest);
    SkipOne('\\', QuoteOnto(s, rest));
    assert ['\\', '"'] + EscapeOnto(s, ['"'] + rest) == ['\\'] + QuoteOnto(s, rest);
  }

  lemma EndsQuotedTail(s: string)
    requires s != ""
    ensures EndsQuoted(s) <==> EndsQuoted(s[1..]) || (s[0] == '"' && s[1..] == WORD)
  {
    var s' := s[1..];
    if |s| > |WORD| + 1 {
      assert s[|s| - |WORD| - 1..] == s'[|s'| - |WORD| - 1..];
    } else if |s| == |WORD| + 1 {
      assert s[0..] == s == [s[0]] + s';
      assert s == ['"'] + WORD <==> s[0] == '"' && s' == WORD;
    }
  }

  /** Searching from a quote in front of the printed form of `s`. */
  lemma SearchAtQuote(s: string, rest: string)
    requires Follows(rest)
    requires AfterProvenanceKey(EscapeOnto(s, ['"'] + rest))
          == if EndsQuoted(s) then Some(rest) else AfterProvenanceKey(rest)
    ensures AfterProvenanceKey(QuoteOnto(s, rest))
         == if Hides(s) then Some(rest) else AfterProvenanceKey(rest)
  {
    KeyAtQuote(s, rest);
    if s == WORD {
      WordPrinted(rest);
      KeyFound(rest);
    } else {
      assert QuoteOnto(s, rest)[1..] == EscapeOnto(s, ['"'] + rest);
    }
  }

  /** A printed string value stops the search exactly when it hides the key. */
  lemma SearchQuoted(s: string, rest: string)
    requires Follows(rest)
    ensures AfterProvenanceKey(QuoteOnto(s, rest))
         == if Hides(s) then Some(rest) else AfterProvenanceKey(rest)
  {
    SearchInside(s, rest);
    SearchAtQuote(s, rest);
  }

  lemma SearchScalar(v: Scalar, rest: string)
    requires Follows(rest)
    ensures AfterProvenanceKey(ScalarOnto(v, rest))
         == if ScalarHides(v) then Some(rest) else AfterProvenanceKey(rest)
  {
    match v
    case Str(text) => SearchQuoted(text, rest);
    case Num(n) =>
      assert AllDigits(ShowDecimal(n));
      SkipQuoteFree(ShowDecimal(n), rest);
    case Null => SkipQuoteFree("null", rest);
  }

  predicate CleanKeys(fields: seq<(string, Scalar)>) {
    forall i :: 0 <= i < |fields| ==> !Hides(fields[i].0)
  }

  /** A search that was stopped by a value: what follows is no colon. */
  predicate Stopped(found: Option<string>) {
    found.Some? && found.value != "" && found.value[0] in {',', '}'}
  }

  /** One `"key":value` pair and what follows it. */
  lemma SearchPair(k: string, v: Scalar, after: string)
    requires !Hides(k) && after != "" && after[0] in {',', '}'}
    ensures AfterProvenanceKey(QuoteOnto(k, [':'] + ScalarOnto(v, after)))
         == if ScalarHides(v) then Some(after) else AfterProvenanceKey(after)
  {
    var tail := ScalarOnto(v, after);
    SearchQuoted(k, [':'] + tail);
    SkipOne(':', tail);
    SearchScalar(v, after);
  }

  lemma {:induction false} SearchFields(fields: seq<(string, Scalar)>, rest: string)
    requires CleanKeys(fields) && rest != "" && rest[0] in {',', '}'}
    ensures if FieldsHide(fields) then Stopped(AfterProvenanceKey(FieldsOnto(fields, rest)))
            else AfterProvenanceKey(FieldsOnto(fields, rest)) == AfterProvenanceKey(rest)
    decreases |fields|
  {
    if fields != [] {
      FieldsHideCons(fields);
      var more := FieldsOnto(fields[1..], rest);
      var after := if |fields| == 1 then rest else [','] + more;
      SearchPair(fields[0].0, fields[0].1, after);
      if |fields| > 1 {
        SearchFields(fields[1..], rest);
        SkipOne(',', more);
      }
    }
  }

  lemma FieldsHideCons(fields: seq<(string, Scalar)>)
    requires fields != []
    ensures FieldsHide(fields) <==> ScalarHides(fields[0].1) || FieldsHide(fields[1..])
  {
    if FieldsHide(fields[1..]) {
      var i :| 0 <= i < |fields[1..]| && ScalarHides(fields[1..][i].1);
      assert ScalarHides(fields[i + 1].1);
    }
    if FieldsHide(fields) && !ScalarHides(fields[0].1) {
      var i :| 0 <= i < |fields| && ScalarHides(fields[i].1);
      assert fields[1..][i - 1] == fields[i];
    }
  }

  /** Quote-free, and told apart from `provenance` by length or fourth letter. */
  predicate CleanKey(k: string) {
    '"' !in k && (|k| != |WORD| || k[3] != 'v')
  }

  lemma CleanKeyHidesNothing(k: string)
    requires CleanKey(k)
    ensures !Hides(k)
  {
    assert WORD[3] == 'v';
    if |k| > |WORD| {
      assert k[|k| - |WORD| - 1..][0] == k[|k| - |WORD| - 1];
    }
  }

  predicate ProjectScoped(r: EntityRef) {
    r.ProjectFile? || r.ProjectFileV2? || r.Symbol? || r.SymbolV2?
  }

  lemma ProjectMemberKeys(r: EntityRef)
    requires ProjectScoped(r)
    ensures forall i :: 0 <= i < |RefFields(r)| ==> CleanKey(RefFields(r)[i].0)
  {
  }

  lemma OtherMemberKeys(r: EntityRef)
    requires !ProjectScoped(r)
    ensures forall i :: 0 <= i < |RefFields(r)| ==> CleanKey(RefFields(r)[i].0)
  {
  }

  lemma RefKeysClean(r: EntityRef)
    ensures CleanKeys(RefFields(r))
  {
    if ProjectScoped(r) {
      ProjectMemberKeys(r);
    } else {
      OtherMemberKeys(r);
    }
    forall i | 0 <= i < |RefFields(r)|
      ensures !Hides(RefFields(r)[i].0)
    {
      CleanKeyHidesNothing(RefFields(r)[i].0);
    }
  }

  lemma FixedKeysClean()
    ensures !Hides("source") && !Hides("kind") && !Hides("target")
  {
    CleanKeyHidesNothing("source");
    CleanKeyHidesNothing("kind");
    CleanKeyHidesNothing("target");
  }

  // ---- the whole line, one member at a time ----

  lemma SearchProvenance(e: Edge)
    ensures AfterProvenanceKey(FromProvenance(e)) == Some([':'] + ProvenanceValue(e))
  {
    var value := [':'] + ProvenanceValue(e);
    SkipTwo('}', ',', PROVENANCE_KEY + value);
    KeyFound(value);
  }

  /** A clean key and the opening of its value are passed over. */
  lemma SearchKey(k: string, c: char, rest: string)
    requires !Hides(k) && c != '"'
    ensures AfterProvenanceKey(QuoteOnto(k, [':', c] + rest)) == AfterProvenanceKey(rest)
  {
    SearchQuoted(k, [':', c] + rest);
    SkipTwo(':', c, rest);
  }

  lemma SearchTarget(e: Edge)
    ensures if FieldsHide(RefFields(e.target)) then Stopped(AfterProvenanceKey(FromTarget(e)))
            else AfterProvenanceKey(FromTarget(e)) == AfterProvenanceKey(FromProvenance(e))
  {
    FixedKeysClean();
    RefKeysClean(e.target);
    var fields := FieldsOnto(RefFields(e.target), FromProvenance(e));
    SkipOne(',', QuoteOnto("target", [':', '{'] + fields));
    SearchKey("target", '{', fields);
    SearchFields(RefFields(e.target), FromProvenance(e));
  }

  lemma SearchKind(e: Edge)
    ensures if Hides(e.kind) then Stopped(AfterProvenanceKey(FromKind(e)))
            else AfterProvenanceKey(FromKind(e)) == AfterProvenanceKey(FromTarget(e))
  {
    FixedKeysClean();
    var value := QuoteOnto(e.kind, FromTarget(e));
    SkipTwo('}', ',', QuoteOnto("kind", [':'] + value));
    SearchQuoted("kind", [':'] + value);
    SkipOne(':', value);
    SearchQuoted(e.kind, FromTarget(e));
  }

  lemma SearchSource(e: Edge)
    ensures if FieldsHide(RefFields(e.source)) then Stopped(AfterProvenanceKey(PrintEdge(e)))
            else AfterProvenanceKey(PrintEdge(e)) == AfterProvenanceKey(FromKind(e))
  {
    FixedKeysClean();
    RefKeysClean(e.source);
    var fields := FieldsOnto(RefFields(e.source), FromKind(e));
    SkipOne('{', QuoteOnto("source", [':', '{'] + fields));
    SearchKey("source", '{', fields);
    SearchFields(RefFields(e.source), FromKind(e));
  }

  lemma SearchEdge(e: Edge)
    ensures if HidesKey(e) then Stopped(AfterProvenanceKey(PrintEdge(e)))
            else AfterProvenanceKey(PrintEdge(e)) == Some([':'] + ProvenanceValue(e))
  {
    SearchSource(e);
    SearchKind(e);
    SearchTarget(e);
    SearchProvenance(e);
  }

  lemma NamePrinted(name: string, rest: string)
    requires Plain(name)
    ensures QuoteOnto(name, rest) == ['"'] + name + ['"'] + rest
  {
    EscapePlain(name, ['"'] + rest);
  }

  lemma OtherValue(name: string, rest: string)
    requires Plain(name) && name != "" && name[0] != 'd'
    ensures !(DERIVED_VALUE <= QuoteOnto(name, rest))
  {
    NamePrinted(name, rest);
    assert QuoteOnto(name, rest)[1] == name[0] && DERIVED_VALUE[1] == 'd';
  }

  lemma DerivedValue(p: Provenance, rest: string)
    ensures DERIVED_VALUE <= QuoteOnto(ProvenanceName(p), rest) <==> p.Derived?
  {
    match p
    case Derived =>
      NamePrinted("derived", rest);
      assert DERIVED_VALUE == ['"'] + "derived" + ['"'];
    case Explicit => OtherValue("explicit", rest);
    case Implicit => OtherValue("implicit", rest);
  }

  lemma TestAtKey(line: string, value: string)
    requires AfterProvenanceKey(line) == Some([':'] + value) && NoLeadingSpace(value)
    ensures LineProvenanceIsDerived(line) <==> DERIVED_VALUE <= value
  {
    assert ([':'] + value)[1..] == value;
  }

  lemma TestStopped(line: string)
    requires Stopped(AfterProvenanceKey(line))
    ensures !LineProvenanceIsDerived(line)
  {
  }

  /**
   * On every line the serialiser writes, the textual test answers true exactly when
   * the edge is derived and no string of its source, kind or target hides the key.
   */
  lemma FastPathExact(e: Edge)
    ensures LineProvenanceIsDerived(PrintEdge(e)) <==> e.provenance.Derived? && !HidesKey(e)
  {
    SearchEdge(e);
    if HidesKey(e) {
      TestStopped(PrintEdge(e));
    } else {
      assert ProvenanceValue(e)[0] == '"';
      TestAtKey(PrintEdge(e), ProvenanceValue(e));
      DerivedValue(e.provenance, FromConfidence(e));
    }
  }

  /** The test misses a derived edge of kind `provenance`, whatever it connects. */
  lemma FastPathMisses(e: Edge)
    requires e.kind == WORD
    ensures !LineProvenanceIsDerived(PrintEdge(e))
  {
    FastPathExact(e);
  }
}
