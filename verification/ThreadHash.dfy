/**
 * The bytes hashed to tell whether a thread has to be embedded again
 * (src/embed_queue.rs): every field is framed by its length.
 */
module ThreadHash {
  import opened Wrappers
  import opened Bytes
  import opened Naturals
  import T = Text

  /** A string in memory: its length fits the machine word it is printed in. */
  type Chars = s: seq<byte> | |s| <= U64_MAX

  /** A list in memory. */
  type List<T> = s: seq<T> | |s| <= U64_MAX

  datatype SessionLink = SessionLink(sessionId: Chars, provider: Chars, name: Option<Chars>)

  datatype ThreadEdge = ThreadEdge(kind: Chars, targetType: Chars, target: Chars, note: Option<Chars>)

  /** The hashed part of a thread; enumerations are represented by their names. */
  datatype Thread = Thread(
    id: Chars, name: Option<Chars>, topic: Chars, project: Chars, status: Chars,
    kind: Option<Chars>, handoffDoc: Option<Chars>,
    notes: List<Chars>, sessions: List<SessionLink>, edges: List<ThreadEdge>)

  // ---- framing one field ----

  /** The `k` low bytes of `n`, least significant first. */
  function LittleEndian(n: nat, k: nat): (r: seq<byte>)
    ensures |r| == k
  {
    if k == 0 then [] else [(n % 256) as byte] + LittleEndian(n / 256, k - 1)
  }

  function High(n: nat, k: nat): nat {
    if k == 0 then n else High(n / 256, k - 1)
  }

  lemma {:induction false} LittleEndianInjective(m: nat, n: nat, k: nat)
    requires LittleEndian(m, k) == LittleEndian(n, k) && High(m, k) == High(n, k)
    ensures m == n
  {
    if k > 0 {
      var a, b := LittleEndian(m, k), LittleEndian(n, k);
      assert a[0] == b[0] && a[1..] == LittleEndian(m / 256, k - 1) && b[1..] == LittleEndian(n / 256, k - 1);
      LittleEndianInjective(m / 256, n / 256, k - 1);
    }
  }

  lemma HighOfWord(n: nat)
    requires n <= U64_MAX
    ensures High(n, 8) == 0
  {
    var a := n / 256;
    var b := a / 256;
    var c := b / 256;
    var d := c / 256;
    assert High(n, 8) == High(a, 7) == High(b, 6) == High(c, 5) == High(d, 4);
    var e := d / 256;
    var f := e / 256;
    var g := f / 256;
    assert High(d, 4) == High(e, 3) == High(f, 2) == High(g, 1) == g / 256;
  }

  /** What `hash_field` feeds: length, zero, bytes, zero. */
  function Frame(value: Chars): seq<byte> {
    LittleEndian(|value|, 8) + ([0] + (value + [0]))
  }

  function Preimage(fields: seq<Chars>): seq<byte> {
    if fields == [] then [] else Frame(fields[0]) + Preimage(fields[1..])
  }

  lemma SplitEqual<T>(a: seq<T>, x: seq<T>, b: seq<T>, y: seq<T>)
    requires a + x == b + y && |a| == |b|
    ensures a == b && x == y
  {
    assert a == (a + x)[..|a|] && b == (b + y)[..|a|];
    assert x == (a + x)[|a|..] && y == (b + y)[|a|..];
  }

  lemma FrameCut(v: Chars, x: seq<byte>, w: Chars, y: seq<byte>)
    requires Frame(v) + x == Frame(w) + y
    ensures v == w && x == y
  {
    var vRest, wRest := [0] + (v + [0]) + x, [0] + (w + [0]) + y;
    assert Frame(v) + x == LittleEndian(|v|, 8) + vRest;
    assert Frame(w) + y == LittleEndian(|w|, 8) + wRest;
    SplitEqual(LittleEndian(|v|, 8), vRest, LittleEndian(|w|, 8), wRest);
    HighOfWord(|v|);
    HighOfWord(|w|);
    LittleEndianInjective(|v|, |w|, 8);
    SplitEqual(Frame(v), x, Frame(w), y);
    SplitEqual([0] + (v + [0]), x, [0] + (w + [0]), y);
    assert v == ([0] + (v + [0]))[1..|v| + 1] && w == ([0] + (w + [0]))[1..|w| + 1];
  }

  /** The preimage is uniquely decodable. */
  lemma {:induction false} PreimageInjective(f: seq<Chars>, g: seq<Chars>)
    requires Preimage(f) == Preimage(g)
    ensures f == g
    decreases |f|
  {
    if f == [] {
      PreimageEmpty(g);
    } else if g == [] {
      PreimageEmpty(f);
    } else {
      FrameCut(f[0], Preimage(f[1..]), g[0], Preimage(g[1..]));
      PreimageInjective(f[1..], g[1..]);
      assert f == [f[0]] + f[1..] && g == [g[0]] + g[1..];
    }
  }

  lemma PreimageEmpty(f: seq<Chars>)
    ensures f != [] ==> |Preimage(f)| > 0
  {
    if f != [] {
      assert |Frame(f[0])| > 0;
    }
  }

  // ---- the fields of a thread ----

  /** What the hash can see of a session, an edge and a thread: an absent field is an empty one. */
  datatype SessionView = SessionView(sessionId: Chars, provider: Chars, name: Chars)

  datatype EdgeView = EdgeView(kind: Chars, targetType: Chars, target: Chars, note: Chars)

  datatype ThreadView = ThreadView(
    id: Chars, name: Chars, topic: Chars, project: Chars, status: Chars, kind: Chars,
    handoffDoc: Chars, notes: List<Chars>, sessions: List<SessionView>, edges: List<EdgeView>)

  function OrEmpty(o: Option<Chars>): Chars {
    match o
    case Some(v) => v
    case None => []
  }

  function ViewSession(s: SessionLink): SessionView {
    SessionView(s.sessionId, s.provider, OrEmpty(s.name))
  }

  function ViewEdge(e: ThreadEdge): EdgeView {
    EdgeView(e.kind, e.targetType, e.target, OrEmpty(e.note))
  }

  function View(t: Thread): ThreadView {
    ThreadView(t.id, OrEmpty(t.name), t.topic, t.project, t.status, OrEmpty(t.kind),
               OrEmpty(t.handoffDoc), t.notes,
               seq(|t.sessions|, i requires 0 <= i < |t.sessions| => ViewSession(t.sessions[i])),
               seq(|t.edges|, i requires 0 <= i < |t.edges| => ViewEdge(t.edges[i])))
  }

  lemma {:induction false} DecimalLength(n: nat)
    ensures |T.ShowDecimal(n)| <= n + 1
    ensures n > 0 ==> |T.ShowDecimal(n)| <= n
  {
    if n >= 10 {
      DecimalLength(n / 10);
    }
  }

  /** `usize::to_string`, as bytes. */
  function Count(n: nat): Chars
    requires n <= U64_MAX
  {
    DecimalLength(n);
    var digits := T.ShowDecimal(n);
    seq(|digits|, i requires 0 <= i < |digits| => (assert T.IsDigit(digits[i]); digits[i] as int as byte))
  }

  lemma CountInjective(m: nat, n: nat)
    requires m <= U64_MAX && n <= U64_MAX && Count(m) == Count(n)
    ensures m == n
  {
    var a, b := T.ShowDecimal(m), T.ShowDecimal(n);
    assert |a| == |Count(m)| == |Count(n)| == |b|;
    forall i | 0 <= i < |a|
      ensures a[i] == b[i]
    {
      assert T.IsDigit(a[i]) && T.IsDigit(b[i]);
      assert Count(m)[i] == Count(n)[i];
    }
    assert a == b;
    T.ShowDecimalInjective(m, n);
  }

  // "thread-v1"
  const TAG: Chars := [116, 104, 114, 101, 97, 100, 45, 118, 49]

  function SessionFields(sessions: seq<SessionView>): (r: seq<Chars>)
    ensures |r| == 3 * |sessions|
  {
    if sessions == [] then []
    else
      [sessions[0].sessionId, sessions[0].provider, sessions[0].name] + SessionFields(sessions[1..])
  }

  function EdgeFields(edges: seq<EdgeView>): (r: seq<Chars>)
    ensures |r| == 4 * |edges|
  {
    if edges == [] then []
    else
      [edges[0].kind, edges[0].targetType, edges[0].target, edges[0].note] + EdgeFields(edges[1..])
  }

  function Header(v: ThreadView): (r: seq<Chars>)
    ensures |r| == 8
  {
    [TAG, v.id, v.name, v.topic, v.project, v.status, v.kind, v.handoffDoc]
  }

  /** The fields in the order they are hashed: scalars, then each list after its length. */
  function Fields(v: ThreadView): seq<Chars> {
    Header(v)
    + ([Count(|v.notes|)] + (v.notes
    + ([Count(|v.sessions|)] + (SessionFields(v.sessions)
    + ([Count(|v.edges|)] + EdgeFields(v.edges))))))
  }

  lemma {:induction false} SessionFieldsInjective(a: seq<SessionView>, b: seq<SessionView>)
    requires |a| == |b| && SessionFields(a) == SessionFields(b)
    ensures a == b
  {
    if a != [] {
      SplitEqual([a[0].sessionId, a[0].provider, a[0].name], SessionFields(a[1..]),
                 [b[0].sessionId, b[0].provider, b[0].name], SessionFields(b[1..]));
      SessionFieldsInjective(a[1..], b[1..]);
      assert a == [a[0]] + a[1..] && b == [b[0]] + b[1..];
      assert [a[0].sessionId, a[0].provider, a[0].name][0] == b[0].sessionId;
      assert [a[0].sessionId, a[0].provider, a[0].name][1] == b[0].provider;
      assert [a[0].sessionId, a[0].provider, a[0].name][2] == b[0].name;
    }
  }

  lemma {:induction false} EdgeFieldsInjective(a: seq<EdgeView>, b: seq<EdgeView>)
    requires |a| == |b| && EdgeFields(a) == EdgeFields(b)
    ensures a == b
  {
    if a != [] {
      var x := [a[0].kind, a[0].targetType, a[0].target, a[0].note];
      var y := [b[0].kind, b[0].targetType, b[0].target, b[0].note];
      SplitEqual(x, EdgeFields(a[1..]), y, EdgeFields(b[1..]));
      EdgeFieldsInjective(a[1..], b[1..]);
      assert a == [a[0]] + a[1..] && b == [b[0]] + b[1..];
      assert x[0] == y[0] && x[1] == y[1] && x[2] == y[2] && x[3] == y[3];
    }
  }

  lemma HeaderInjective(v: ThreadView, w: ThreadView)
    requires Header(v) == Header(w)
    ensures v.id == w.id && v.name == w.name && v.topic == w.topic && v.project == w.project
    ensures v.status == w.status && v.kind == w.kind && v.handoffDoc == w.handoffDoc
  {
    var x, y := Header(v), Header(w);
    assert x[1] == y[1] && x[2] == y[2] && x[3] == y[3] && x[4] == y[4];
    assert x[5] == y[5] && x[6] == y[6] && x[7] == y[7];
  }

  /** A counted list in front of the remaining fields can be cut off. */
  lemma CountedCut(m: nat, x: seq<Chars>, n: nat, y: seq<Chars>)
    requires m <= U64_MAX && n <= U64_MAX
    requires [Count(m)] + x == [Count(n)] + y
    ensures m == n && x == y
  {
    SplitEqual([Count(m)], x, [Count(n)], y);
    assert [Count(m)][0] == [Count(n)][0];
    CountInjective(m, n);
  }

  lemma FieldsInjective(v: ThreadView, w: ThreadView)
    requires Fields(v) == Fields(w)
    ensures v == w
  {
    var ve, we := EdgeFields(v.edges), EdgeFields(w.edges);
    var vs, ws := [Count(|v.edges|)] + ve, [Count(|w.edges|)] + we;
    var vt, wt := SessionFields(v.sessions) + vs, SessionFields(w.sessions) + ws;
    var vn, wn := [Count(|v.sessions|)] + vt, [Count(|w.sessions|)] + wt;
    SplitEqual(Header(v), [Count(|v.notes|)] + (v.notes + vn), Header(w), [Count(|w.notes|)] + (w.notes + wn));
    HeaderInjective(v, w);
    CountedCut(|v.notes|, v.notes + vn, |w.notes|, w.notes + wn);
    SplitEqual(v.notes, vn, w.notes, wn);
    CountedCut(|v.sessions|, vt, |w.sessions|, wt);
    SplitEqual(SessionFields(v.sessions), vs, SessionFields(w.sessions), ws);
    SessionFieldsInjective(v.sessions, w.sessions);
    CountedCut(|v.edges|, ve, |w.edges|, we);
    EdgeFieldsInjective(v.edges, w.edges);
  }

  /** Two threads are hashed alike exactly when they agree on everything the hash covers. */
  lemma ThreadPreimageExact(t: Thread, u: Thread)
    ensures Preimage(Fields(View(t))) == Preimage(Fields(View(u))) <==> View(t) == View(u)
  {
    if Preimage(Fields(View(t))) == Preimage(Fields(View(u))) {
      PreimageInjective(Fields(View(t)), Fields(View(u)));
      FieldsInjective(View(t), View(u));
    }
  }

  // ---- in terms of the threads ----

  /** Absent counts as empty. */
  predicate SameText(a: Option<Chars>, b: Option<Chars>) {
    a == b || (a.None? && b == Some([])) || (a == Some([]) && b.None?)
  }

  predicate SameSession(a: SessionLink, b: SessionLink) {
    a.sessionId == b.sessionId && a.provider == b.provider && SameText(a.name, b.name)
  }

  predicate SameEdge(a: ThreadEdge, b: ThreadEdge) {
    a.kind == b.kind && a.targetType == b.targetType && a.target == b.target && SameText(a.note, b.note)
  }

  predicate SameScalars(t: Thread, u: Thread) {
    && t.id == u.id && SameText(t.name, u.name) && t.topic == u.topic && t.project == u.project
    && t.status == u.status && SameText(t.kind, u.kind) && SameText(t.handoffDoc, u.handoffDoc)
  }

  predicate SameLists(t: Thread, u: Thread) {
    && t.notes == u.notes
    && |t.sessions| == |u.sessions| && |t.edges| == |u.edges|
    && (forall i :: 0 <= i < |t.sessions| ==> SameSession(t.sessions[i], u.sessions[i]))
    && (forall i :: 0 <= i < |t.edges| ==> SameEdge(t.edges[i], u.edges[i]))
  }

  lemma ScalarsViewed(t: Thread, u: Thread)
    ensures SameScalars(t, u) <==>
              && View(t).id == View(u).id && View(t).name == View(u).name && View(t).topic == View(u).topic
              && View(t).project == View(u).project && View(t).status == View(u).status
              && View(t).kind == View(u).kind && View(t).handoffDoc == View(u).handoffDoc
  {
  }

  lemma ListsViewed(t: Thread, u: Thread)
    ensures SameLists(t, u) <==>
              View(t).notes == View(u).notes && View(t).sessions == View(u).sessions && View(t).edges == View(u).edges
  {
    var vs, ws, ve, we := View(t).sessions, View(u).sessions, View(t).edges, View(u).edges;
    assert forall i :: 0 <= i < |vs| ==> vs[i] == ViewSession(t.sessions[i]);
    assert forall i :: 0 <= i < |ws| ==> ws[i] == ViewSession(u.sessions[i]);
    assert forall i :: 0 <= i < |ve| ==> ve[i] == ViewEdge(t.edges[i]);
    assert forall i :: 0 <= i < |we| ==> we[i] == ViewEdge(u.edges[i]);
  }

  /** Two threads are hashed alike exactly when none of the hashed fields tells them apart. */
  lemma HashedAlike(t: Thread, u: Thread)
    ensures Preimage(Fields(View(t))) == Preimage(Fields(View(u))) <==> SameScalars(t, u) && SameLists(t, u)
  {
    ThreadPreimageExact(t, u);
    ScalarsViewed(t, u);
    ListsViewed(t, u);
  }

  /** The first field names the format. */
  lemma FormatTag(t: Thread)
    ensures var first := Fields(View(t))[0];
            |first| == |"thread-v1"| && forall i :: 0 <= i < |first| ==> first[i] as int == "thread-v1"[i] as int
  {
  }

  // ---- feeding the hasher ----

  /** A hasher, represented by all the bytes it has been fed. */
  class Hasher {
    var fed: seq<byte>
    ghost var fields: seq<Chars>

    ghost predicate Framed()
      reads this
    {
      fed == Preimage(fields)
    }

    constructor ()
      ensures fed == [] && fields == [] && Framed()
    {
      fed, fields := [], [];
    }

    method Update(bytes: seq<byte>)
      modifies this`fed
      ensures fed == old(fed) + bytes
    {
      fed := fed + bytes;
    }

    method HashField(value: Chars)
      requires Framed()
      modifies this
      ensures Framed() && fields == old(fields) + [value]
    {
      ghost var before := fed;
      Update(LittleEndian(|value|, 8));
      Update([0]);
      Update(value);
      Update([0]);
      assert fed == before + Frame(value);
      PreimagePush(fields, value);
      fields := fields + [value];
    }
  }

  lemma {:induction false} PreimagePush(f: seq<Chars>, v: Chars)
    ensures Preimage(f + [v]) == Preimage(f) + Frame(v)
    decreases |f|
  {
    var all := f + [v];
    if f == [] {
      assert all == [v] && all[1..] == [];
      assert Preimage(all) == Frame(v) + [];
    } else {
      PreimagePush(f[1..], v);
      assert all[0] == f[0] && all[1..] == f[1..] + [v];
    }
  }

  lemma {:induction false} SessionFieldsStep(sessions: seq<SessionView>, i: nat)
    requires i < |sessions|
    ensures SessionFields(sessions[..i + 1])
         == SessionFields(sessions[..i]) + [sessions[i].sessionId, sessions[i].provider, sessions[i].name]
    decreases i
  {
    var longer, shorter := sessions[..i + 1], sessions[..i];
    if i == 0 {
      assert longer[1..] == [];
    } else {
      SessionFieldsStep(sessions[1..], i - 1);
      assert longer[1..] == sessions[1..][..i] && shorter[1..] == sessions[1..][..i - 1];
    }
  }

  lemma {:induction false} EdgeFieldsStep(edges: seq<EdgeView>, i: nat)
    requires i < |edges|
    ensures EdgeFields(edges[..i + 1])
         == EdgeFields(edges[..i]) + [edges[i].kind, edges[i].targetType, edges[i].target, edges[i].note]
    decreases i
  {
    var longer, shorter := edges[..i + 1], edges[..i];
    if i == 0 {
      assert longer[1..] == [];
    } else {
      EdgeFieldsStep(edges[1..], i - 1);
      assert longer[1..] == edges[1..][..i] && shorter[1..] == edges[1..][..i - 1];
    }
  }

  method HashHeader(t: Thread) returns (hasher: Hasher)
    ensures fresh(hasher) && hasher.Framed() && hasher.fields == Header(View(t))
  {
    hasher := new Hasher();
    hasher.HashField(TAG);
    hasher.HashField(t.id);
    hasher.HashField(OrEmpty(t.name));
    hasher.HashField(t.topic);
    assert hasher.fields == [TAG, t.id, OrEmpty(t.name), t.topic];
    hasher.HashField(t.project);
    hasher.HashField(t.status);
    match t.kind {
      case Some(kind) => hasher.HashField(kind);
      case None => hasher.HashField([]);
    }
    hasher.HashField(OrEmpty(t.handoffDoc));
  }

  lemma Nested<T>(a: seq<T>, b: seq<T>, c: seq<T>, d: seq<T>)
    ensures a + (b + c) + d == a + (b + (c + d))
  {
  }

  lemma Flattened<T>(a: seq<T>, b: seq<T>, c: seq<T>, d: seq<T>, e: seq<T>, f: seq<T>)
    ensures a + (b + c) + (d + e) + f == a + (b + (c + (d + (e + f))))
  {
  }

  method HashNotes(hasher: Hasher, notes: List<Chars>)
    requires hasher.Framed()
    modifies hasher
    ensures hasher.Framed() && hasher.fields == old(hasher.fields) + ([Count(|notes|)] + notes)
  {
    hasher.HashField(Count(|notes|));
    for i := 0 to |notes|
      invariant hasher.Framed() && hasher.fields == old(hasher.fields) + ([Count(|notes|)] + notes[..i])
    {
      hasher.HashField(notes[i]);
      assert notes[..i + 1] == notes[..i] + [notes[i]];
    }
    assert notes[..|notes|] == notes;
  }

  method HashSession(hasher: Hasher, s: SessionLink)
    requires hasher.Framed()
    modifies hasher
    ensures hasher.Framed()
    ensures hasher.fields == old(hasher.fields) + [s.sessionId, s.provider, OrEmpty(s.name)]
  {
    hasher.HashField(s.sessionId);
    hasher.HashField(s.provider);
    hasher.HashField(OrEmpty(s.name));
  }

  method HashEdge(hasher: Hasher, e: ThreadEdge)
    requires hasher.Framed()
    modifies hasher
    ensures hasher.Framed()
    ensures hasher.fields == old(hasher.fields) + [e.kind, e.targetType, e.target, OrEmpty(e.note)]
  {
    hasher.HashField(e.kind);
    hasher.HashField(e.targetType);
    hasher.HashField(e.target);
    hasher.HashField(OrEmpty(e.note));
  }

  method HashSessions(hasher: Hasher, sessions: List<SessionLink>, ghost views: seq<SessionView>)
    requires hasher.Framed()
    requires |views| == |sessions| && forall i :: 0 <= i < |views| ==> views[i] == ViewSession(sessions[i])
    modifies hasher
    ensures hasher.Framed()
    ensures hasher.fields == old(hasher.fields) + ([Count(|sessions|)] + SessionFields(views))
  {
    hasher.HashField(Count(|sessions|));
    for i := 0 to |sessions|
      invariant hasher.Framed()
      invariant hasher.fields == old(hasher.fields) + ([Count(|sessions|)] + SessionFields(views[..i]))
    {
      SessionFieldsStep(views, i);
      ghost var session := views[i];
      HashSession(hasher, sessions[i]);
      Nested(old(hasher.fields), [Count(|sessions|)], SessionFields(views[..i]),
             [session.sessionId, session.provider, session.name]);
    }
    assert views[..|views|] == views;
  }

  method HashEdges(hasher: Hasher, edges: List<ThreadEdge>, ghost views: seq<EdgeView>)
    requires hasher.Framed()
    requires |views| == |edges| && forall i :: 0 <= i < |views| ==> views[i] == ViewEdge(edges[i])
    modifies hasher
    ensures hasher.Framed()
    ensures hasher.fields == old(hasher.fields) + ([Count(|edges|)] + EdgeFields(views))
  {
    hasher.HashField(Count(|edges|));
    for i := 0 to |edges|
      invariant hasher.Framed()
      invariant hasher.fields == old(hasher.fields) + ([Count(|edges|)] + EdgeFields(views[..i]))
    {
      EdgeFieldsStep(views, i);
      ghost var edge := views[i];
      HashEdge(hasher, edges[i]);
      Nested(old(hasher.fields), [Count(|edges|)], EdgeFields(views[..i]),
             [edge.kind, edge.targetType, edge.target, edge.note]);
    }
    assert views[..|views|] == views;
  }

  /** `thread_chunk_hash`, up to the digest of what was fed. */
  method ThreadChunkHash(t: Thread) returns (preimage: seq<byte>)
    ensures preimage == Preimage(Fields(View(t)))
  {
    var hasher := HashHeader(t);
    HashNotes(hasher, t.notes);
    HashSessions(hasher, t.sessions, View(t).sessions);
    HashEdges(hasher, t.edges, View(t).edges);
    Flattened(Header(View(t)), [Count(|t.notes|)], t.notes, [Count(|t.sessions|)], SessionFields(View(t).sessions),
              [Count(|t.edges|)] + EdgeFields(View(t).edges));
    assert hasher.fields == Fields(View(t));
    preimage := hasher.fed;
  }
}
