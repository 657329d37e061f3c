/** Lines of a byte stream, as `str::lines` and `BufRead::lines` see them. */
module ByteLines {
  import opened Bytes
  import opened Seqs
  import opened Chopping

  const LF: byte := 10
  const CR: byte := 13

  /** The length of the first line with its terminator; 0 when no line is complete. */
  function FirstLine(s: seq<byte>): (n: nat)
    ensures n <= |s|
    ensures n == 0 <==> LF !in s
    ensures n > 0 ==> s[n - 1] == LF && LF !in s[..n - 1]
  {
    if s == [] then 0
    else if s[0] == LF then 1
    else
      var n := FirstLine(s[1..]);
      if n == 0 then 0
      else
        assert s[..n] == [s[0]] + s[1..][..n - 1];
        n + 1
  }

  lemma {:induction false} FirstLineAt(s: seq<byte>, n: nat)
    requires 0 < n <= |s| && s[n - 1] == LF && LF !in s[..n - 1]
    ensures FirstLine(s) == n
  {
    if n > 1 {
      assert s[..n - 1] == [s[0]] + s[1..][..n - 2];
      FirstLineAt(s[1..], n - 1);
    }
  }

  lemma FirstLineLocal()
    ensures Local(FirstLine)
  {
    forall s: seq<byte>, t: seq<byte> | 0 < FirstLine(s) <= |s|
      ensures FirstLine(s[..FirstLine(s)] + t) == FirstLine(s)
    {
      var n := FirstLine(s);
      var all := s[..n] + t;
      assert all[..n - 1] == s[..n - 1] && all[n - 1] == s[n - 1];
      FirstLineAt(all, n);
    }
  }

  predicate EndsLine(s: seq<byte>) {
    s == [] || s[|s| - 1] == LF
  }

  function StripCr(line: seq<byte>): seq<byte> {
    if line != [] && line[|line| - 1] == CR then line[..|line| - 1] else line
  }

  /** A line without its terminator: one newline and, before it, at most one carriage return. */
  function LineText(line: seq<byte>): seq<byte> {
    if line != [] && line[|line| - 1] == LF then StripCr(line[..|line| - 1]) else line
  }

  /** The lines of a stream; an unterminated last line is one. */
  function Lines(s: seq<byte>): seq<seq<byte>> {
    var rest := s[Chopped(FirstLine, s)..];
    MapSeq(LineText, Chop(FirstLine, s)) + if rest == [] then [] else [rest]
  }

  function Terminated(line: seq<byte>): seq<byte> {
    line + [LF]
  }

  function Encode(lines: seq<seq<byte>>): seq<byte> {
    FlatMap(Terminated, lines)
  }

  lemma EncodeLast(lines: seq<seq<byte>>, line: seq<byte>)
    ensures Encode(lines + [line]) == Encode(lines) + Terminated(line)
    ensures |Encode(lines + [line])| == |Encode(lines)| + |line| + 1
  {
    FlatMapConcat(Terminated, lines, [line]);
    FlatMapOne(Terminated, line);
  }

  lemma TerminatedIsLine(line: seq<byte>)
    requires LF !in line
    ensures FirstLine(Terminated(line)) == |Terminated(line)|
    ensures LineText(Terminated(line)) == StripCr(line)
  {
    var all := Terminated(line);
    assert all[..|line|] == line;
    FirstLineAt(all, |all|);
  }

  lemma LineTextHoldsNoNewline(piece: seq<byte>)
    requires FirstLine(piece) == |piece| > 0
    ensures LF !in LineText(piece)
  {
    assert LF !in piece[..|piece| - 1];
  }

  lemma LinesHoldNoNewline(s: seq<byte>)
    ensures forall line :: line in Lines(s) ==> LF !in line
  {
    FirstLineLocal();
    ChopMembers(FirstLine, s);
    ChopFront(FirstLine, s);
    var pieces, rest := Chop(FirstLine, s), s[Chopped(FirstLine, s)..];
    assert FirstLine(rest) == 0;
    forall line | line in MapSeq(LineText, pieces)
      ensures LF !in line
    {
      var i :| 0 <= i < |pieces| && line == LineText(pieces[i]);
      LineTextHoldsNoNewline(pieces[i]);
    }
  }

  /** Writing lines and reading them back drops one carriage return from each. */
  lemma LinesEncode(lines: seq<seq<byte>>)
    requires forall line :: line in lines ==> LF !in line
    ensures Lines(Encode(lines)) == MapSeq(StripCr, lines)
  {
    FirstLineLocal();
    forall line | line in lines
      ensures 0 < FirstLine(Terminated(line)) == |Terminated(line)|
      ensures LineText(Terminated(line)) == StripCr(line)
    {
      TerminatedIsLine(line);
    }
    ChopPieces(FirstLine, Terminated, lines);
  }
}
