/**
 * What is printed for the lines of an event stream (src/cli.rs), in terms of their
 * text. `SseStream` proves that the chunks of the stream do not matter.
 */
module SsePayloads {
  import opened Bytes
  import ByteLines
  import opened Text
  import opened Seqs
  import opened SseStream
  import opened Utf8Text

  /** Text without line ends. */
  predicate OneLine(s: string) {
    '\n' !in s && '\r' !in s
  }

  predicate IsLineEnd(end: string) {
    end == "\n" || end == "\r\n"
  }

  /** The payloads of one line, behind which it ends. */
  lemma LineOutput(line: string, end: string)
    requires OneLine(line) && IsLineEnd(end)
    ensures Output(EncodeText(line + end)) == PayloadOf(line)
  {
    LossyEncoded(line + end);
    var text := if end == "\n" then line else line + "\r";
    assert line + end == text + ['\n'] + "";
    LinesCons(line + end, text, "");
    StrippedLine(line, text);
    assert StrLines("") == [];
    FlatMapOne(PayloadOf, line);
  }

  lemma StrippedLine(line: string, text: string)
    requires '\r' !in line && (text == line || text == line + "\r")
    ensures StripCr(text) == line
  {
    assert line != "" ==> line[|line| - 1] in line;
  }

  lemma EncodedEnd(end: string)
    requires IsLineEnd(end)
    ensures EncodeText(end) == if end == "\n" then [10] else [13, 10]
  {
    assert EncodeChar('\n') == [10] && EncodeChar('\r') == [13];
    assert "\n"[1..] == "" && "\r\n"[1..] == "\n";
  }

  lemma EndsEvent(front: seq<byte>, end: string)
    requires IsLineEnd(end)
    ensures EndsWithSeparator(front + EncodeText(end) + EncodeText(end))
  {
    EncodedEnd(end);
  }

  lemma PrintedWhole(s: seq<byte>)
    requires EndsWithSeparator(s)
    ensures Printed(s) == Output(s)
  {
    assert s[..|s|] == s && LastSeparatorEnd(s) == |s|;
  }

  lemma EndsBytes(front: seq<byte>, end: string)
    requires IsLineEnd(end)
    ensures ByteLines.EndsLine(front + EncodeText(end))
  {
    EncodedEnd(end);
  }

  /** Behind whole lines, one line more and the blank line that ends the event. */
  lemma EventPrinted(before: seq<byte>, line: string, end: string)
    requires ByteLines.EndsLine(before) && OneLine(line) && IsLineEnd(end)
    ensures Printed(before + EncodeText(line + end + end)) == Output(before) + PayloadOf(line)
  {
    var last := EncodeText(end);
    EncodeConcat(line + end, end);
    EncodeConcat(line, end);
    EndsEvent(before + EncodeText(line), end);
    Associate(before, EncodeText(line), last);
    Associate(before, EncodeText(line + end), last);
    PrintedWhole(before + EncodeText(line + end + end));
    LineOutput(line, end);
    LineOutput("", end);
    assert "" + end == end && PayloadOf("") == [];
    EndsBytes(before + EncodeText(line), end);
    OutputConcat(before, EncodeText(line + end));
    OutputConcat(before + EncodeText(line + end), last);
  }

  /** Behind `data`, a colon and a space, the rest of the line is printed. */
  lemma DataPrinted(before: seq<byte>, payload: string, end: string)
    requires ByteLines.EndsLine(before) && OneLine(payload) && IsLineEnd(end)
    ensures Printed(before + EncodeText("data: " + payload + end + end)) == Output(before) + [payload]
  {
    EventPrinted(before, "data: " + payload, end);
    assert PayloadOf("data: " + payload) == [payload];
  }

  /** Without the space, it is printed short of the white space it starts with. */
  lemma BareDataPrinted(before: seq<byte>, pad: string, payload: string, end: string)
    requires ByteLines.EndsLine(before) && OneLine(pad) && OneLine(payload) && IsLineEnd(end)
    requires Blank(pad) && NoLeadingSpace(payload) && !(" " <= pad)
    ensures Printed(before + EncodeText("data:" + (pad + payload) + end + end)) == Output(before) + [payload]
  {
    EventPrinted(before, "data:" + (pad + payload), end);
    TrimStartExactly(pad, payload);
    BarePayload(pad + payload);
  }

  lemma BarePayload(text: string)
    requires text == "" || text[0] != ' '
    ensures PayloadOf("data:" + text) == [TrimStart(text)]
  {
    var line := "data:" + text;
    assert line[5..] == text && (text != "" ==> line[5] == text[0]);
    assert "data: "[5] == ' ';
  }

  /** A line that does not start with `data` and a colon prints nothing. */
  lemma OtherPrinted(before: seq<byte>, line: string, end: string)
    requires ByteLines.EndsLine(before) && OneLine(line) && IsLineEnd(end) && !("data:" <= line)
    ensures Printed(before + EncodeText(line + end + end)) == Output(before)
  {
    EventPrinted(before, line, end);
    NoPayload(line);
  }

  lemma NoPayload(line: string)
    requires !("data:" <= line)
    ensures PayloadOf(line) == []
  {
    assert "data: "[..5] == "data:";
    if |line| >= 5 {
      var i :| 0 <= i < 5 && line[i] != "data:"[i];
      assert "data: "[i] == "data:"[i];
    }
  }

  /** What follows a finished event is printed behind it. */
  lemma EventsPrinted(s: seq<byte>, t: seq<byte>)
    requires EndsWithSeparator(s) && EndsWithSeparator(t)
    ensures Printed(s + t) == Printed(s) + Printed(t)
  {
    SeparatorExtends(s, t);
    PrintedWhole(s);
    PrintedWhole(t);
    PrintedWhole(s + t);
    SeparatorEndsLine(s);
    OutputConcat(s, t);
  }
}
