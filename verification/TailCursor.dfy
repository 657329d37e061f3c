/**
 * Following a transcript file that only grows (src/cli.rs): seeding from its
 * contents, then polling for the lines completed since.
 */
module TailCursor {
  import opened Wrappers
  import opened Bytes
  import opened ByteLines
  import opened Utf8
  import opened Seqs
  import opened Chopping
  import opened GrowingFile

  const SEED_EVENTS: nat := 50
  const MAX_EVENTS: nat := 2000

  datatype Event = Event(json: string)

  /** What the transcript parser makes of the lines that occur; other lines yield nothing. */
  type Parser = map<seq<byte>, seq<Event>>

  function EventsOf(parser: Parser, line: seq<byte>): seq<Event> {
    if line in parser then parser[line] else []
  }

  // ---- lines ----

  /** `trim_end_matches` for the newline and then for all carriage returns before it. */
  function TrimTerminator(line: seq<byte>): seq<byte> {
    TrimCrs(if line != [] && line[|line| - 1] == LF then line[..|line| - 1] else line)
  }

  function TrimCrs(line: seq<byte>): seq<byte> {
    if line != [] && line[|line| - 1] == CR then TrimCrs(line[..|line| - 1]) else line
  }

  predicate EndsIn(s: seq<byte>, end: seq<byte>) {
    |end| <= |s| && s[|s| - |end|..] == end
  }

  lemma EndsInLast(s: seq<byte>, end: seq<byte>, last: byte)
    ensures EndsIn(s, end + [last]) <==> s != [] && s[|s| - 1] == last && EndsIn(s[..|s| - 1], end)
  {
    var n := |end| + 1;
    if s != [] && n <= |s| {
      assert s[|s| - n..] == s[..|s| - 1][|s| - n..] + [s[|s| - 1]];
      assert (end + [last])[..|end|] == end && (end + [last])[|end|] == last;
    }
  }

  lemma CrEnds(s: seq<byte>)
    ensures EndsIn(s, [CR]) <==> s != [] && s[|s| - 1] == CR
    ensures EndsIn(s, [CR, CR]) <==> s != [] && s[|s| - 1] == CR && EndsIn(s[..|s| - 1], [CR])
  {
    EndsInLast(s, [], CR);
    EndsInLast(s, [CR], CR);
    assert [] + [CR] == [CR] && [CR] + [CR] == [CR, CR];
  }

  lemma {:induction false} TrimmedCrs(s: seq<byte>)
    ensures |TrimCrs(s)| <= |s|
    ensures TrimCrs(s) == s <==> !EndsIn(s, [CR])
    ensures TrimCrs(s) == StripCr(s) <==> !EndsIn(s, [CR, CR])
  {
    CrEnds(s);
    if s != [] && s[|s| - 1] == CR {
      TrimmedCrs(s[..|s| - 1]);
    }
  }

  /**
   * Seeding strips one carriage return from a line, polling all of them: they read the
   * same unless two or more precede the newline, or one ends a line without any.
   */
  lemma ReadAlike(line: seq<byte>)
    ensures LineText(line) == TrimTerminator(line) <==> !EndsIn(line, [CR, CR, LF]) && !EndsIn(line, [CR])
  {
    EndsInLast(line, [CR, CR], LF);
    assert [CR, CR] + [LF] == [CR, CR, LF];
    CrEnds(line);
    if line != [] && line[|line| - 1] == LF {
      TrimmedCrs(line[..|line| - 1]);
    } else {
      TrimmedCrs(line);
    }
  }

  /** The first line of `s` when `read_line` delivers it complete and as text; 0 otherwise. */
  function ReadableLine(s: seq<byte>): (n: nat)
    ensures n <= |s|
  {
    var n := FirstLine(s);
    if n > 0 && Valid(s[..n]) then n else 0
  }

  lemma FirstLineLocal(s: seq<byte>, t: seq<byte>)
    requires 0 < ReadableLine(s)
    ensures ReadableLine(s[..ReadableLine(s)] + t) == ReadableLine(s)
  {
    var n := ReadableLine(s);
    var all := s[..n] + t;
    assert all[..n] == s[..n] && all[..n - 1] == s[..n - 1] && all[n - 1] == s[n - 1];
    FirstLineAt(all, n);
  }

  lemma LineLocal()
    ensures Local(ReadableLine)
  {
    forall s: seq<byte>, t: seq<byte> | 0 < ReadableLine(s) <= |s|
      ensures ReadableLine(s[..ReadableLine(s)] + t) == ReadableLine(s)
    {
      FirstLineLocal(s, t);
    }
  }

  // ---- the lane ----

  function EventsOfLine(parser: Parser): seq<byte> -> seq<Event> {
    line => EventsOf(parser, TrimTerminator(line))
  }

  /** What seeding shows: the last 50 events of the last 150 lines. */
  function SeedEvents(parser: Parser, content: seq<byte>): (events: seq<Event>)
    ensures |events| <= SEED_EVENTS
  {
    LastN(FlatMap(line => EventsOf(parser, line), LastN(Lines(content), SEED_EVENTS * 3)), SEED_EVENTS)
  }

  class Lane {
    const parser: Parser
    var events: seq<Event>
    var fileOffset: nat
    var missing: bool

    ghost function View(): Cursor<Event>
      reads this
    {
      Cursor(events, fileOffset)
    }

    constructor (parser: Parser)
      ensures this.parser == parser && View() == Cursor([], 0) && !missing
    {
      this.parser := parser;
      events, fileOffset, missing := [], 0, false;
    }

    /** Text that cannot be read, or is not UTF-8, leaves the lane empty and marked. */
    method SeedJsonl(content: Option<seq<byte>>)
      modifies this
      ensures var readable := content.Some? && Valid(content.value);
              && View() == (if readable then Cursor(SeedEvents(parser, content.value), |content.value|)
                         else old(View()))
              && missing == (old(missing) || !readable)
    {
      if content.None? || !Valid(content.value) {
        missing := true;
        return;
      }
      fileOffset := |content.value|;
      var lines := LastN(Lines(content.value), SEED_EVENTS * 3);
      var found := [];
      for i := 0 to |lines|
        invariant found == FlatMap(line => EventsOf(parser, line), lines[..i])
      {
        found := found + EventsOf(parser, lines[i]);
        assert lines[..i + 1][..i] == lines[..i];
      }
      assert lines[..|lines|] == lines;
      if |found| > SEED_EVENTS {
        found := found[|found| - SEED_EVENTS..];
      }
      events := found;
    }

    method CapEvents()
      modifies this`events
      ensures events == LastN(old(events), MAX_EVENTS)
      ensures events == if |old(events)| <= 2000 then old(events) else old(events)[|old(events)| - 2000..]
    {
      if |events| > MAX_EVENTS {
        events := events[|events| - MAX_EVENTS..];
      }
    }

    /** `added` reports whether the poll read any event. */
    method PollJsonl(look: Look<byte>) returns (added: bool)
      modifies this`events, this`fileOffset
      ensures View() == Polled(ReadableLine, EventsOfLine(parser), MAX_EVENTS, old(View()), look)
      ensures fileOffset != old(fileOffset) <==>
                && look.length.Some? && look.length.value > old(fileOffset) && look.bytes.Some?
                && ReadableLine(From(look.bytes.value, old(fileOffset))) > 0
      ensures added <==>
                && look.length.Some? && look.length.value > old(fileOffset) && look.bytes.Some?
                && |Read(ReadableLine, EventsOfLine(parser), From(look.bytes.value, old(fileOffset)))| > 0
    {
      if look.length.None? {
        return false;
      }
      if look.length.value <= fileOffset {
        return false;
      }
      if look.length.value < fileOffset {
        assert false;
      }
      if look.bytes.None? {
        return false;
      }
      var found, taken := ReadAvailable(parser, From(look.bytes.value, fileOffset));
      events, fileOffset := events + found, fileOffset + taken;
      CapEvents();
      return |found| > 0;
    }
  }

  /** The read loop of a poll: it stops at the end of the file, a partial line or a line that is not text. */
  method ReadAvailable(parser: Parser, bytes: seq<byte>) returns (found: seq<Event>, taken: nat)
    ensures found == Read(ReadableLine, EventsOfLine(parser), bytes)
    ensures taken == Chopped(ReadableLine, bytes)
  {
    found, taken := [], 0;
    var unread := bytes;
    ghost var render := EventsOfLine(parser);
    Associate([], [], Read(ReadableLine, render, bytes));
    while true
      invariant Chopped(ReadableLine, bytes) == taken + Chopped(ReadableLine, unread)
      invariant Read(ReadableLine, render, bytes) == found + Read(ReadableLine, render, unread)
      decreases |unread|
    {
      var line := ReadLine(unread);
      if line.None? || |line.value| == 0 || line.value[|line.value| - 1] != LF {
        break;
      }
      ReadStep(ReadableLine, render, found, unread);
      found := found + EventsOf(parser, TrimTerminator(line.value));
      taken := taken + |line.value|;
      unread := unread[|line.value|..];
    }
    ReadNothing(ReadableLine, render, found, unread);
  }

  /** `read_line`: up to the next newline or the end of the file; `None` when that is not text. */
  method ReadLine(unread: seq<byte>) returns (line: Option<seq<byte>>)
    ensures line.Some? ==> |line.value| <= |unread| && line.value == unread[..|line.value|] && Valid(line.value)
    ensures line.Some? && |line.value| > 0 && line.value[|line.value| - 1] == LF ==>
              ReadableLine(line.value) == |line.value| == ReadableLine(unread)
    ensures line.None? || |line.value| == 0 || line.value[|line.value| - 1] != LF ==>
              ReadableLine(unread) == 0
  {
    var n := FirstLine(unread);
    var bytes := if n > 0 then unread[..n] else unread;
    if !Valid(bytes) {
      return None;
    }
    if n > 0 {
      ReadableAlone(unread, n);
    } else if bytes != [] {
      assert bytes[|bytes| - 1] in unread;
    }
    return Some(bytes);
  }

  lemma ReadableAlone(unread: seq<byte>, n: nat)
    requires 0 < n == FirstLine(unread) && Valid(unread[..n])
    ensures ReadableLine(unread[..n]) == n == ReadableLine(unread)
  {
    FirstLineLocal(unread, []);
    assert unread[..n] + [] == unread[..n];
  }

  // ---- what a line shows ----

  function Crs(n: nat): seq<byte> {
    seq(n, i => 13 as byte)
  }

  lemma {:induction false} CrsTrimmed(text: seq<byte>, crs: nat)
    requires text == [] || text[|text| - 1] != 13
    ensures TrimCrs(text + Crs(crs)) == text
    decreases crs
  {
    var all := text + Crs(crs);
    if crs == 0 {
      assert all == text;
    } else {
      assert all[|all| - 1] == 13 && all[..|all| - 1] == text + Crs(crs - 1);
      CrsTrimmed(text, crs - 1);
    }
  }

  lemma LineRead(parser: Parser, line: seq<byte>)
    requires ReadableLine(line) == |line| > 0
    ensures Read(ReadableLine, EventsOfLine(parser), line) == EventsOf(parser, TrimTerminator(line))
  {
    ChopOne(ReadableLine, line);
    FlatMapOne(EventsOfLine(parser), line);
  }

  lemma TerminatorTrimmed(text: seq<byte>, crs: nat)
    requires text == [] || text[|text| - 1] != 13
    ensures TrimTerminator(text + Crs(crs) + [10]) == text
  {
    var body := text + Crs(crs);
    assert (body + [10])[..|body|] == body;
    CrsTrimmed(text, crs);
  }

  /** A polled line shows the events of its text, short of the newline and every carriage return before it. */
  lemma PolledLine(parser: Parser, text: seq<byte>, crs: nat)
    requires Valid(text) && 10 !in text && (text == [] || text[|text| - 1] != 13)
    ensures var line := text + Crs(crs) + [10];
            && ReadableLine(line) == |line|
            && Read(ReadableLine, EventsOfLine(parser), line) == if text in parser then parser[text] else []
  {
    CrsValid(crs);
    ValidConcat(text, Crs(crs));
    LastLine(text + Crs(crs), 10);
    TerminatorTrimmed(text, crs);
    LineRead(parser, text + Crs(crs) + [10]);
  }

  lemma {:induction false} CrsValid(crs: nat)
    ensures Valid(Crs(crs))
  {
    if crs > 0 {
      CrsValid(crs - 1);
      assert Crs(crs)[1..] == Crs(crs - 1) && CharLength(Crs(crs)) == 1;
    }
  }

  /** A seeded line loses one carriage return only; of its events the last 50 are shown. */
  lemma SeededLine(parser: Parser, text: seq<byte>, end: seq<byte>)
    requires 10 !in text && (end == [13, 10] || (end == [10] && (text == [] || text[|text| - 1] != 13)))
    ensures var events := if text in parser then parser[text] else [];
            SeedEvents(parser, text + end) == if |events| <= 50 then events else events[|events| - 50..]
  {
    OneLineRead(text, end);
    OneSeeded(parser, text + end, text);
  }

  lemma OneLineRead(text: seq<byte>, end: seq<byte>)
    requires 10 !in text && (end == [13, 10] || (end == [10] && (text == [] || text[|text| - 1] != 13)))
    ensures Lines(text + end) == [text]
  {
    var body := if end == [10] then text else text + [13];
    assert text + end == body + [10];
    LastLineFirst(body, 10);
    ChopWhole(body + [10]);
    assert StripCr(body) == text && (body + [10])[..|body|] == body;
  }

  lemma OneSeeded(parser: Parser, content: seq<byte>, text: seq<byte>)
    requires Lines(content) == [text]
    ensures var events := if text in parser then parser[text] else [];
            SeedEvents(parser, content) == if |events| <= 50 then events else events[|events| - 50..]
  {
    FlatMapOne(line => EventsOf(parser, line), text);
  }

  lemma ChopWhole(line: seq<byte>)
    requires FirstLine(line) == |line| > 0
    ensures Lines(line) == [LineText(line)]
  {
    ChopOne(FirstLine, line);
    assert line[|line|..] == [];
    assert Chopped(FirstLine, []) == 0;
  }

  /** Of a longer file the last 150 lines are seeded. */
  lemma SeededLines(parser: Parser, content: seq<byte>)
    ensures var lines := Lines(content);
            var seeded := if |lines| <= 150 then lines else lines[|lines| - 150..];
            var events := FlatMap(line => EventsOf(parser, line), seeded);
            SeedEvents(parser, content) == if |events| <= 50 then events else events[|events| - 50..]
  {
  }

  // ---- following a file that only grows ----

  /**
   * Every poll schedule over a file that is only appended to keeps the offset behind
   * complete lines; the events are the last 2000 of those seeded and those of the
   * lines read since, each line once. The offset is on a line boundary of the file
   * exactly when a line has been read or the seed was empty or ended with a newline.
   */
  lemma EverySchedule(parser: Parser, seed: seq<byte>, looks: seq<Look<byte>>, files: seq<seq<byte>>)
    returns (read: seq<byte>, cursor: Cursor<Event>)
    requires AppendOnly(seed, files) && LooksAt(looks, files)
    ensures cursor == Run(ReadableLine, EventsOfLine(parser), MAX_EVENTS,
                          Cursor(SeedEvents(parser, seed), |seed|), looks)
    ensures seed + read <= Latest(seed, files) && cursor.offset == |seed| + |read|
    ensures Follows(ReadableLine, EventsOfLine(parser), MAX_EVENTS, SeedEvents(parser, seed), |seed|, read, cursor)
    ensures EndsLine(seed + read) <==> read != [] || EndsLine(seed)
  {
    LineLocal();
    var render := EventsOfLine(parser);
    read := RunFollows(ReadableLine, render, MAX_EVENTS, SeedEvents(parser, seed), seed, looks, files);
    cursor := Run(ReadableLine, render, MAX_EVENTS, Cursor(SeedEvents(parser, seed), |seed|), looks);
    ChoppedEndsLine(read);
    EndsLineBehind(seed, read);
  }

  lemma EndsLineBehind(seed: seq<byte>, read: seq<byte>)
    requires EndsLine(read[..|read|])
    ensures EndsLine(seed + read) <==> read != [] || EndsLine(seed)
  {
    assert read[..|read|] == read;
    if read == [] {
      assert seed + read == seed;
    }
  }

  /**
   * The last poll decides: if it sees the whole file, the lane shows what the file
   * determines, and only an incomplete or undecodable line is left unread.
   */
  lemma EveryScheduleAgrees(parser: Parser, seed: seq<byte>, growth: seq<byte>, looks: seq<Look<byte>>,
                            files: seq<seq<byte>>, whole: Look<byte>)
    requires AppendOnly(seed, files + [seed + growth]) && LooksAt(looks, files)
    requires whole == Look(Some(|seed + growth|), Some(seed + growth))
    ensures Run(ReadableLine, EventsOfLine(parser), MAX_EVENTS,
                Cursor(SeedEvents(parser, seed), |seed|), looks + [whole])
         == CaughtUp(ReadableLine, EventsOfLine(parser), MAX_EVENTS, SeedEvents(parser, seed), |seed|, growth)
    ensures ReadableLine(growth[Chopped(ReadableLine, growth)..]) == 0
  {
    LineLocal();
    ScheduleIndependent(ReadableLine, EventsOfLine(parser), MAX_EVENTS, SeedEvents(parser, seed), seed, growth,
                        looks, files, whole);
    ChopFront(ReadableLine, growth);
  }

  /** Every complete line of a growth is read exactly when each of them is text. */
  lemma {:induction false} EveryLineRead(growth: seq<byte>)
    ensures Chopped(ReadableLine, growth) == Chopped(FirstLine, growth)
            <==> forall line :: line in Chop(FirstLine, growth) ==> Valid(line)
    decreases |growth|
  {
    var n := FirstLine(growth);
    if n > 0 {
      assert [growth[..n]] + Chop(FirstLine, growth[n..]) == Chop(FirstLine, growth);
      if Valid(growth[..n]) {
        EveryLineRead(growth[n..]);
      } else {
        assert growth[..n] in Chop(FirstLine, growth);
      }
    }
  }

  /** A complete line that is not text stops every later poll, whatever is appended. */
  lemma BadLineStops(unread: seq<byte>, more: seq<byte>)
    requires FirstLine(unread) > 0 && ReadableLine(unread) == 0
    ensures Chopped(ReadableLine, unread + more) == 0
  {
    var n := FirstLine(unread);
    var all := unread + more;
    assert all[..n] == unread[..n] && all[..n - 1] == unread[..n - 1] && all[n - 1] == unread[n - 1];
    FirstLineAt(all, n);
  }

  // ---- line boundaries ----

  lemma ChoppedEndsLine(s: seq<byte>)
    ensures EndsLine(s[..Chopped(ReadableLine, s)])
  {
    ChoppedEnds(ReadableLine, LF, s);
  }

  lemma NewlineEndsChar(s: seq<byte>, n: nat)
    requires Valid(s) && 0 < n <= |s| && s[n - 1] == LF
    ensures Valid(s[..n]) && Valid(s[n..])
  {
    ValidCut(s, n - 1);
    var rest := s[n - 1..];
    assert rest[0] == LF && CharLength(rest) == 1;
    assert rest[1..] == s[n..];
    if n < |s| {
      ValidStart(s[n..]);
    }
    ValidCut(s, n);
  }

  /** In a text that ends with a newline every line can be read. */
  lemma {:induction false} TextIsLines(s: seq<byte>)
    requires Valid(s) && EndsLine(s)
    ensures Chopped(ReadableLine, s) == |s|
    decreases |s|
  {
    if s != [] {
      assert s[|s| - 1] in s;
      var n := FirstLine(s);
      NewlineEndsChar(s, n);
      assert n < |s| ==> s[n..][|s[n..]| - 1] == s[|s| - 1];
      TextIsLines(s[n..]);
    }
  }

  /**
   * Seeding and polling together cut every growth of the file at its own line ends
   * exactly when the seeded text was empty or ended with a newline.
   */
  lemma SeedBoundary(seed: seq<byte>)
    requires Valid(seed)
    ensures (forall growth :: Chop(ReadableLine, seed + growth)
                              == Chop(ReadableLine, seed) + Chop(ReadableLine, growth))
            <==> EndsLine(seed)
  {
    if EndsLine(seed) {
      TextIsLines(seed);
      LineLocal();
      forall growth: seq<byte>
        ensures Chop(ReadableLine, seed + growth) == Chop(ReadableLine, seed) + Chop(ReadableLine, growth)
      {
        ChopConcat(ReadableLine, seed, growth);
      }
    } else {
      UnfinishedLine(seed);
      assert Chop(ReadableLine, seed + [LF]) != Chop(ReadableLine, seed) + Chop(ReadableLine, [LF]);
    }
  }

  /** Completing an unfinished line gives a line that seeding and polling never see whole. */
  lemma UnfinishedLine(seed: seq<byte>)
    requires Valid(seed) && !EndsLine(seed)
    ensures Chop(ReadableLine, seed + [LF]) != Chop(ReadableLine, seed) + Chop(ReadableLine, [LF])
  {
    LineLocal();
    ChopFront(ReadableLine, seed);
    ChoppedEndsLine(seed);
    var n := Chopped(ReadableLine, seed);
    UnfinishedTail(seed, n);
    NoReadableLine(seed[n..]);
    LastLine([], LF);
    LastLine(seed[n..], LF);
    assert [] + [LF] == [LF];
    ChopUnfinished(ReadableLine, seed, [LF]);
  }

  lemma NoReadableLine(tail: seq<byte>)
    requires Valid(tail) && ReadableLine(tail) == 0
    ensures LF !in tail
  {
    if FirstLine(tail) > 0 {
      NewlineEndsChar(tail, FirstLine(tail));
    }
  }

  lemma UnfinishedTail(s: seq<byte>, n: nat)
    requires Valid(s) && !EndsLine(s) && n <= |s| && EndsLine(s[..n])
    ensures n < |s| && Valid(s[n..])
  {
    assert s[..|s|] == s;
    if n > 0 {
      NewlineEndsChar(s, n);
    } else {
      assert s[n..] == s;
    }
  }

  lemma LastLine(tail: seq<byte>, end: byte)
    requires Valid(tail) && LF !in tail && end == LF
    ensures ReadableLine(tail + [end]) == |tail + [end]|
  {
    NewlineValid([end]);
    ValidConcat(tail, [end]);
    LastLineFirst(tail, end);
    WholeLine(tail + [end]);
  }

  lemma NewlineValid(s: seq<byte>)
    requires s == [LF]
    ensures Valid(s)
  {
    assert CharLength(s) == 1 && s[1..] == [];
  }

  lemma WholeLine(line: seq<byte>)
    requires FirstLine(line) == |line| > 0 && Valid(line)
    ensures ReadableLine(line) == |line|
  {
    assert line[..|line|] == line;
  }

  lemma LastLineFirst(tail: seq<byte>, end: byte)
    requires LF !in tail && end == LF
    ensures FirstLine(tail + [end]) == |tail| + 1
  {
    assert (tail + [end])[..|tail|] == tail;
    FirstLineAt(tail + [end], |tail| + 1);
  }
}
