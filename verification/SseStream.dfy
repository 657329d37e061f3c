/**
 * The reader of a server-sent event stream (src/cli.rs): chunks are buffered, cut
 * at record separators, and the `data:` lines of each record are printed.
 */
module SseStream {
  import opened Wrappers
  import opened Bytes
  import opened ByteLines
  import opened Text
  import opened Seqs
  import opened Utf8

  // ---- String::from_utf8_lossy ----

  function DecodeChar(s: seq<byte>): char
    requires CharLength(s) > 0
  {
    var b0 := s[0] as int;
    match CharLength(s)
    case 1 => b0 as char
    case 2 => ((b0 - 0xC0) * 64 + (s[1] as int - 0x80)) as char
    case 3 => ((b0 - 0xE0) * 4096 + (s[1] as int - 0x80) * 64 + (s[2] as int - 0x80)) as char
    case _ =>
      ((b0 - 0xF0) * 262144 + (s[1] as int - 0x80) * 4096 + (s[2] as int - 0x80) * 64
       + (s[3] as int - 0x80)) as char
  }

  /** How many bytes one replacement character stands for: the longest start of a character. */
  function BadLength(s: seq<byte>): (n: nat)
    requires s != []
    ensures 1 <= n <= |s|
  {
    if |s| >= 2 && 0xE0 <= s[0] <= 0xEF && IsContinuation(s[1])
       && (s[0] == 0xE0 ==> s[1] >= 0xA0) && (s[0] == 0xED ==> s[1] < 0xA0)
    then 2
    else if |s| >= 2 && 0xF0 <= s[0] <= 0xF4 && IsContinuation(s[1])
            && (s[0] == 0xF0 ==> s[1] >= 0x90) && (s[0] == 0xF4 ==> s[1] < 0x90)
    then (if |s| >= 3 && IsContinuation(s[2]) then 3 else 2)
    else 1
  }

  function FirstChar(s: seq<byte>): (char, nat)
    requires s != []
  {
    if CharLength(s) > 0 then (DecodeChar(s), CharLength(s)) else ('\U{FFFD}', BadLength(s))
  }

  function Lossy(s: seq<byte>): string
    decreases |s|
  {
    if s == [] then ""
    else
      var (c, n) := FirstChar(s);
      if n == 0 || n > |s| then "" else [c] + Lossy(s[n..])
  }

  /** Decoding never reads across a byte that cannot continue a character. */
  lemma FirstCharLocal(s: seq<byte>, t: seq<byte>)
    requires s != [] && t != [] && !IsContinuation(t[0])
    ensures FirstChar(s + t) == FirstChar(s) && 1 <= FirstChar(s).1 <= |s|
  {
    var st := s + t;
    assert forall i :: 0 <= i < |s| ==> st[i] == s[i];
    assert st[|s|] == t[0];
  }

  lemma {:induction false} LossyCut(s: seq<byte>, t: seq<byte>)
    requires t == [] || !IsContinuation(t[0])
    ensures Lossy(s + t) == Lossy(s) + Lossy(t)
    decreases |s|
  {
    if s == [] {
      assert s + t == t;
    } else if t == [] {
      assert s + t == s;
    } else {
      FirstCharLocal(s, t);
      var n := FirstChar(s).1;
      TakeAndDrop(s, t, n);
      LossyCut(s[n..], t);
      Associate([FirstChar(s).0], Lossy(s[n..]), Lossy(t));
    }
  }

  // ---- what a piece of the stream prints ----

  function StripCr(line: string): string {
    if line != "" && line[|line| - 1] == '\r' then line[..|line| - 1] else line
  }

  /** `str::lines` */
  function StrLines(s: string): seq<string>
    decreases |s|
  {
    match SplitOnce(s, '\n')
    case None => if s == "" then [] else [s]
    case Some((line, rest)) => [StripCr(line)] + StrLines(rest)
  }

  function PayloadOf(line: string): seq<string> {
    if "data: " <= line then [line[6..]]
    else if "data:" <= line then [TrimStart(line[5..])]
    else []
  }

  function PayloadsOf(lines: seq<string>): seq<string> {
    FlatMap(PayloadOf, lines)
  }

  /** The payloads printed for one frame. */
  function Output(frame: seq<byte>): seq<string> {
    PayloadsOf(StrLines(Lossy(frame)))
  }

  lemma LinesCons(s: string, line: string, rest: string)
    requires '\n' !in line && s == line + ['\n'] + rest
    ensures StrLines(s) == [StripCr(line)] + StrLines(rest)
  {
    SplitOnceAt(line, '\n', rest);
  }

  lemma {:induction false} LinesConcat(s: string, t: string)
    requires s == "" || s[|s| - 1] == '\n'
    ensures StrLines(s + t) == StrLines(s) + StrLines(t)
    decreases |s|
  {
    if s == "" {
      assert s + t == t;
    } else {
      assert s[|s| - 1] in s;
      var (line, rest) := SplitOnce(s, '\n').value;
      assert rest == s[|line| + 1..];
      LinesConcat(rest, t);
      LinesStep(s, t, line, rest);
    }
  }

  lemma LinesStep(s: string, t: string, line: string, rest: string)
    requires '\n' !in line && s == line + ['\n'] + rest
    requires StrLines(rest + t) == StrLines(rest) + StrLines(t)
    ensures StrLines(s + t) == StrLines(s) + StrLines(t)
  {
    LinesCons(s, line, rest);
    Associate(line + ['\n'], rest, t);
    LinesCons(s + t, line, rest + t);
    Regroup(StripCr(line), StrLines(rest), StrLines(t));
  }

  lemma Regroup<T>(x: T, a: seq<T>, b: seq<T>)
    ensures [x] + (a + b) == [x] + a + b
  {
  }

  lemma LossyNewline(s: seq<byte>)
    requires s != [] && EndsLine(s)
    ensures Lossy(s) != "" && Lossy(s)[|Lossy(s)| - 1] == '\n'
  {
    var a := s[..|s| - 1];
    assert s == a + [10];
    LossyCut(a, [10]);
    assert CharLength([10]) == 1 && [10][1..] == [];
    assert Lossy([10]) == ['\n'] + Lossy([]);
    assert Lossy([10]) == "\n";
  }

  /** Behind a line end, output simply continues. */
  lemma OutputConcat(a: seq<byte>, b: seq<byte>)
    requires EndsLine(a)
    ensures Output(a + b) == Output(a) + Output(b)
  {
    LossyAtLineEnd(a, b);
    if a != [] {
      LossyNewline(a);
    }
    LinesConcat(Lossy(a), Lossy(b));
    FlatMapConcat(PayloadOf, StrLines(Lossy(a)), StrLines(Lossy(b)));
  }

  /** A newline is a character of its own, whatever follows. */
  lemma LossyAtLineEnd(a: seq<byte>, b: seq<byte>)
    requires EndsLine(a)
    ensures Lossy(a + b) == Lossy(a) + Lossy(b)
  {
    if a == [] {
      assert a + b == b;
    } else {
      var a' := a[..|a| - 1];
      assert a == a' + [10];
      assert a + b == a' + ([10] + b);
      LossyCut(a', [10]);
      LossyCut(a', [10] + b);
      var tail := [10] + b;
      assert CharLength(tail) == 1 && tail[1..] == b;
      assert CharLength([10]) == 1 && [10][1..] == [];
      assert Lossy(tail) == ['\n'] + Lossy(b) && Lossy([10]) == ['\n'] + Lossy([]);
      assert Lossy(a') + (['\n'] + Lossy(b)) == (Lossy(a') + ['\n']) + Lossy(b);
      assert Lossy([10]) == ['\n'];
    }
  }

  // ---- separators ----

  predicate LfAt(buf: seq<byte>, i: nat) {
    i + 2 <= |buf| && buf[i] == 10 && buf[i + 1] == 10
  }

  predicate CrLfAt(buf: seq<byte>, i: nat) {
    i + 4 <= |buf| && buf[i] == 13 && buf[i + 1] == 10 && buf[i + 2] == 13 && buf[i + 3] == 10
  }

  ghost predicate NoSeparator(buf: seq<byte>) {
    forall i: nat :: !LfAt(buf, i) && !CrLfAt(buf, i)
  }

  predicate EndsWithSeparator(s: seq<byte>) {
    (|s| >= 2 && LfAt(s, |s| - 2)) || (|s| >= 4 && CrLfAt(s, |s| - 4))
  }

  /** The first index from `i` on with a pair of newlines; the length of the buffer if there is none. */
  function FirstLf(buf: seq<byte>, i: nat): (r: nat)
    requires i <= |buf|
    ensures i <= r <= |buf| && (r < |buf| ==> LfAt(buf, r))
    ensures forall j: nat :: i <= j < r ==> !LfAt(buf, j)
    decreases |buf| - i
  {
    if i == |buf| || LfAt(buf, i) then i else FirstLf(buf, i + 1)
  }

  /** The same for a pair of CRLFs. */
  function FirstCrLf(buf: seq<byte>, i: nat): (r: nat)
    requires i <= |buf|
    ensures i <= r <= |buf| && (r < |buf| ==> CrLfAt(buf, r))
    ensures forall j: nat :: i <= j < r ==> !CrLfAt(buf, j)
    decreases |buf| - i
  {
    if i == |buf| || CrLfAt(buf, i) then i else FirstCrLf(buf, i + 1)
  }

  function SeparatorPos(buf: seq<byte>): (pos: Option<nat>)
    ensures pos.Some? ==> pos.value + 2 <= |buf|
  {
    if FirstLf(buf, 0) < |buf| then Some(FirstLf(buf, 0))
    else if FirstCrLf(buf, 0) < |buf| then Some(FirstCrLf(buf, 0) + 2)
    else None
  }

  /** `find_sse_separator`: two bytes before the end of the separator that is cut at. */
  method FindSseSeparator(buf: seq<byte>) returns (pos: Option<nat>)
    ensures pos.None? ==> NoSeparator(buf)
    ensures pos.Some? ==>
              || (LfAt(buf, pos.value) && forall j: nat :: j < pos.value ==> !LfAt(buf, j))
              || (pos.value >= 2 && CrLfAt(buf, pos.value - 2)
                  && (forall j: nat :: j < pos.value - 2 ==> !CrLfAt(buf, j))
                  && (forall j: nat :: !LfAt(buf, j)))
    ensures pos == SeparatorPos(buf)
  {
    var i: nat := 0;
    while i + 1 < |buf|
      invariant i <= |buf| && FirstLf(buf, 0) == FirstLf(buf, i)
      invariant forall j: nat :: j < i ==> !LfAt(buf, j)
    {
      if buf[i] == 10 && buf[i + 1] == 10 {
        return Some(i);
      }
      i := i + 1;
    }
    assert FirstLf(buf, 0) == |buf|;
    i := 0;
    while i + 3 < |buf|
      invariant i <= |buf| && FirstCrLf(buf, 0) == FirstCrLf(buf, i)
      invariant forall j: nat :: j < i ==> !CrLfAt(buf, j)
    {
      if buf[i] == 13 && buf[i + 1] == 10 && buf[i + 2] == 13 && buf[i + 3] == 10 {
        return Some(i + 2);
      }
      i := i + 1;
    }
    assert FirstCrLf(buf, 0) == |buf|;
    return None;
  }

  /** The frames cut off a buffer, one after the other, and what stays in it. */
  function Drained(frames: seq<seq<byte>>, buf: seq<byte>): (seq<seq<byte>>, seq<byte>)
    decreases |buf|
  {
    match SeparatorPos(buf)
    case None => (frames, buf)
    case Some(pos) => Drained(frames + [buf[..pos + 2]], buf[pos + 2..])
  }

  lemma DrainOnce(frames: seq<seq<byte>>, buf: seq<byte>, pos: nat)
    requires SeparatorPos(buf) == Some(pos)
    ensures pos + 2 <= |buf| && Drained(frames, buf) == Drained(frames + [buf[..pos + 2]], buf[pos + 2..])
  {
  }

  lemma NothingDrained(frames: seq<seq<byte>>, buf: seq<byte>)
    requires SeparatorPos(buf) == None
    ensures Drained(frames, buf) == (frames, buf)
  {
  }

  /** The frames of a stream that arrives in these chunks, and what is left. */
  function Framed(chunks: seq<seq<byte>>): (seq<seq<byte>>, seq<byte>) {
    if chunks == [] then ([], [])
    else
      var (frames, buf) := Framed(chunks[..|chunks| - 1]);
      Drained(frames, buf + chunks[|chunks| - 1])
  }

  // ---- where a stream can be cut in the end ----

  /** The end of the last separator of a stream; 0 if it has none. */
  function LastSeparatorEnd(s: seq<byte>): (e: nat)
    ensures e <= |s|
    ensures e > 0 ==> EndsWithSeparator(s[..e])
    ensures forall k :: e < k <= |s| ==> !EndsWithSeparator(s[..k])
  {
    if s == [] then 0
    else if EndsWithSeparator(s) then assert s[..|s|] == s; |s|
    else
      var e := LastSeparatorEnd(s[..|s| - 1]);
      assert forall k :: 0 <= k < |s| ==> s[..|s| - 1][..k] == s[..k];
      assert s[..|s|] == s;
      e
  }

  /** As a reader leaves it, however the chunks came: it has cut at `c`, and the rest holds no separator. */
  ghost predicate FinalCut(s: seq<byte>, c: nat) {
    c <= |s| && (c == 0 || EndsWithSeparator(s[..c])) && NoSeparator(s[c..])
  }

  /** Such a cut is at most one blank line before the last separator's end. */
  lemma FinalCutNear(s: seq<byte>, c: nat)
    requires FinalCut(s, c)
    ensures var e := LastSeparatorEnd(s);
            c <= e && (c < e ==> c > 0 && (s[c..e] == [10] || s[c..e] == [13, 10]))
  {
    var e := LastSeparatorEnd(s);
    if c < e {
      var done := s[..e];
      if LfAt(done, e - 2) {
        assert e - 2 >= c ==> LfAt(s[c..], e - 2 - c);
        assert c == e - 1;
      } else {
        assert e - 4 >= c ==> CrLfAt(s[c..], e - 4 - c);
        assert e - 4 < c;
        assert s[c - 1] == 10;
        assert c == e - 2;
      }
    }
  }

  lemma BlankOutput(a: seq<byte>, b: seq<byte>)
    requires EndsLine(a) && (b == [10] || b == [13, 10])
    ensures Output(a + b) == Output(a)
  {
    if b == [10] {
      LineEndOutput("", b);
    } else {
      LineEndOutput("\r", b);
    }
    OutputConcat(a, b);
  }

  lemma LineEndOutput(cr: string, s: seq<byte>)
    requires (cr == "" && s == [10]) || (cr == "\r" && s == [13, 10])
    ensures Output(s) == []
  {
    assert CharLength([10]) == 1 && [10][1..] == [];
    assert Lossy([10]) == ['\n'] + Lossy([]);
    if cr == "\r" {
      assert CharLength(s) == 1 && s[1..] == [10];
      assert Lossy(s) == ['\r'] + Lossy([10]);
    }
    assert Lossy(s) == cr + ['\n'] + "";
    SplitOnceAt(cr, '\n', "");
    assert StripCr(cr) == "";
    assert StrLines(Lossy(s)) == [""] + StrLines("");
    assert StrLines(Lossy(s)) == [""];
    assert PayloadsOf([""]) == PayloadsOf([""][..0]) + PayloadOf("");
  }

  /** What any schedule prints for a stream: the payloads up to its last separator. */
  function Printed(s: seq<byte>): seq<string> {
    Output(s[..LastSeparatorEnd(s)])
  }

  /** Whichever such cut a reader arrives at, it has printed the same payloads. */
  lemma FinalCutPrints(s: seq<byte>, c: nat)
    requires FinalCut(s, c)
    ensures Output(s[..c]) == Printed(s)
  {
    var e := LastSeparatorEnd(s);
    FinalCutNear(s, c);
    if c < e {
      SeparatorEndsLine(s[..c]);
      BlankOutput(s[..c], s[c..e]);
      assert s[..c] + s[c..e] == s[..e];
    }
  }

  // ---- the stream loop ----

  class StreamReader {
    var buf: seq<byte>
    var printed: seq<string>
    ghost var consumed: seq<byte>
    ghost var frames: seq<seq<byte>>

    ghost predicate Valid()
      reads this
    {
      && printed == Output(consumed)
      && (consumed == [] || EndsWithSeparator(consumed))
    }

    /** All bytes received so far. */
    ghost function Received(): seq<byte>
      reads this
    {
      consumed + buf
    }

    constructor ()
      ensures Valid() && Received() == [] && NoSeparator(buf) && printed == [] && (frames, buf) == Framed([])
    {
      buf, printed, consumed, frames := [], [], [], [];
    }

    /** Cutting one frame off the buffer and printing its payloads. */
    method DrainFrame(pos: nat)
      requires Valid() && pos + 2 <= |buf| && EndsWithSeparator(buf[..pos + 2])
      modifies this
      ensures Valid() && Received() == old(Received())
      ensures frames == old(frames) + [old(buf)[..pos + 2]] && buf == old(buf)[pos + 2..]
    {
      var frame := buf[..pos + 2];
      buf := buf[pos + 2..];
      printed := printed + Output(frame);
      DrainStep(consumed, frame, buf);
      consumed := consumed + frame;
      frames := frames + [frame];
    }

    method OnChunk(chunk: seq<byte>)
      requires Valid()
      modifies this
      ensures Valid() && NoSeparator(buf)
      ensures Received() == old(Received()) + chunk
      ensures (frames, buf) == Drained(old(frames), old(buf) + chunk)
    {
      Associate(consumed, buf, chunk);
      buf := buf + chunk;
      var pos := FindSseSeparator(buf);
      while pos.Some?
        invariant pos == SeparatorPos(buf) && (pos.None? ==> NoSeparator(buf))
        invariant Drained(frames, buf) == Drained(old(frames), old(buf) + chunk)
        invariant Valid() && Received() == old(Received()) + chunk
        decreases |buf|
      {
        FoundEndsFrame(buf, pos.value);
        DrainOnce(frames, buf, pos.value);
        DrainFrame(pos.value);
        pos := FindSseSeparator(buf);
      }
      NothingDrained(frames, buf);
    }
  }

  lemma SeparatorEndsLine(s: seq<byte>)
    requires s == [] || EndsWithSeparator(s)
    ensures EndsLine(s)
  {
  }

  lemma SeparatorExtends(a: seq<byte>, b: seq<byte>)
    requires EndsWithSeparator(b)
    ensures EndsWithSeparator(a + b)
  {
    var ab := a + b;
    assert forall i :: 0 <= i < |b| ==> ab[|a| + i] == b[i];
  }

  lemma DrainStep(consumed: seq<byte>, frame: seq<byte>, rest: seq<byte>)
    requires consumed == [] || EndsWithSeparator(consumed)
    requires EndsWithSeparator(frame)
    ensures Output(consumed + frame) == Output(consumed) + Output(frame)
    ensures EndsWithSeparator(consumed + frame)
    ensures consumed + frame + rest == consumed + (frame + rest)
  {
    SeparatorEndsLine(consumed);
    OutputConcat(consumed, frame);
    SeparatorExtends(consumed, frame);
    Associate(consumed, frame, rest);
  }

  lemma FoundEndsFrame(buf: seq<byte>, pos: nat)
    requires SeparatorPos(buf) == Some(pos)
    ensures EndsWithSeparator(buf[..pos + 2])
  {
  }

  function Concat(chunks: seq<seq<byte>>): seq<byte> {
    if chunks == [] then [] else Concat(chunks[..|chunks| - 1]) + chunks[|chunks| - 1]
  }

  /**
   * Chunk invariance: the payloads printed depend on the bytes of the stream alone,
   * not on how they were cut into chunks. The frames and what stays may differ.
   */
  method ReadStream(chunks: seq<seq<byte>>)
    returns (printed: seq<string>, ghost frames: seq<seq<byte>>, ghost rest: seq<byte>)
    ensures printed == Printed(Concat(chunks))
    ensures (frames, rest) == Framed(chunks)
  {
    var reader := new StreamReader();
    for i := 0 to |chunks|
      invariant fresh(reader) && reader.Valid() && NoSeparator(reader.buf)
      invariant reader.Received() == Concat(chunks[..i])
      invariant (reader.frames, reader.buf) == Framed(chunks[..i])
    {
      reader.OnChunk(chunks[i]);
      assert chunks[..i + 1][..i] == chunks[..i];
    }
    assert chunks[..|chunks|] == chunks;
    ghost var s, c := Concat(chunks), |reader.consumed|;
    assert s == reader.consumed + reader.buf;
    assert s[..c] == reader.consumed && s[c..] == reader.buf;
    FinalCutPrints(s, c);
    printed, frames, rest := reader.printed, reader.frames, reader.buf;
  }
}
