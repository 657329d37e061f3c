/**
 * How the chunks of a server-sent event stream bear on the places where it is cut
 * (src/cli.rs): exactly when the frames depend on them, and when what stays in the
 * buffer does. The payloads printed never do (`SseStream.ReadStream`).
 */
module SseSchedules {
  import opened Wrappers
  import opened Bytes
  import opened Seqs
  import opened SseStream

  // ---- runs of the reader ----

  /** Frames already cut stay in front of those to come. */
  lemma {:induction false} DrainedBehind(done: seq<seq<byte>>, frames: seq<seq<byte>>, buf: seq<byte>)
    ensures Drained(done + frames, buf) == (done + Drained(frames, buf).0, Drained(frames, buf).1)
    decreases |buf|
  {
    match SeparatorPos(buf)
    case None =>
    case Some(pos) =>
      var frame := buf[..pos + 2];
      Associate(done, frames, [frame]);
      DrainedBehind(done, frames + [frame], buf[pos + 2..]);
  }

  lemma FramedNext(chunks: seq<seq<byte>>, chunk: seq<byte>)
    ensures Framed(chunks + [chunk]) == Drained(Framed(chunks).0, Framed(chunks).1 + chunk)
    ensures Concat(chunks + [chunk]) == Concat(chunks) + chunk
  {
    assert (chunks + [chunk])[..|chunks|] == chunks;
  }

  lemma FramedAtOnce(chunk: seq<byte>)
    ensures Framed([chunk]) == Drained([], chunk) && Concat([chunk]) == chunk
  {
    FramedNext([], chunk);
    assert [] + [chunk] == [chunk] && [] + chunk == chunk;
  }

  /** A first chunk that is cut off whole leaves the reader as new, but for its frame. */
  lemma {:induction false} FramedBehind(frame: seq<byte>, chunks: seq<seq<byte>>)
    requires Drained([], frame) == ([frame], [])
    ensures Framed([frame] + chunks) == ([frame] + Framed(chunks).0, Framed(chunks).1)
    ensures Concat([frame] + chunks) == frame + Concat(chunks)
    decreases |chunks|
  {
    if chunks == [] {
      FramedAtOnce(frame);
      assert [frame] + chunks == [frame];
    } else {
      var n := |chunks| - 1;
      var front, last := chunks[..n], chunks[n];
      FramedBehind(frame, front);
      DropLast(chunks);
      Associate([frame], front, [last]);
      FramedNext([frame] + front, last);
      FramedNext(front, last);
      DrainedBehind([frame], Framed(front).0, Framed(front).1 + last);
      Associate(frame, Concat(front), last);
    }
  }

  // ---- when the frames depend on the chunks ----

  /** No pair of CRLFs comes before a pair of newlines. */
  ghost predicate NewlinePairsFirst(s: seq<byte>) {
    forall i: nat, j: nat :: CrLfAt(s, i) && LfAt(s, j) ==> j < i
  }

  lemma FirstIs(s: seq<byte>, i: nat, pos: nat)
    requires i <= pos
    ensures LfAt(s, pos) && (forall j: nat :: i <= j < pos ==> !LfAt(s, j)) ==> FirstLf(s, i) == pos
    ensures CrLfAt(s, pos) && (forall j: nat :: i <= j < pos ==> !CrLfAt(s, j)) ==> FirstCrLf(s, i) == pos
  {
  }

  lemma SeparatorIs(s: seq<byte>, pos: nat)
    ensures SeparatorPos(s) == Some(pos) <==>
              || (LfAt(s, pos) && forall j: nat :: j < pos ==> !LfAt(s, j))
              || (pos >= 2 && CrLfAt(s, pos - 2) && (forall j: nat :: j < pos - 2 ==> !CrLfAt(s, j))
                  && forall j: nat :: !LfAt(s, j))
  {
    FirstIs(s, 0, pos);
    if pos >= 2 {
      FirstIs(s, 0, pos - 2);
    }
    if FirstLf(s, 0) < |s| {
      assert LfAt(s, FirstLf(s, 0));
    }
  }

  lemma AtFront(s: seq<byte>, t: seq<byte>, i: nat)
    ensures i + 2 <= |s| ==> (LfAt(s + t, i) <==> LfAt(s, i))
    ensures i + 4 <= |s| ==> (CrLfAt(s + t, i) <==> CrLfAt(s, i))
  {
  }

  lemma AtBack(s: seq<byte>, t: seq<byte>, i: nat)
    ensures LfAt(s + t, |s| + i) <==> LfAt(t, i)
    ensures CrLfAt(s + t, |s| + i) <==> CrLfAt(t, i)
  {
    assert forall k: nat :: k < |t| ==> (s + t)[|s| + k] == t[k];
  }

  lemma PairsFirstParts(s: seq<byte>, t: seq<byte>)
    requires NewlinePairsFirst(s + t)
    ensures NewlinePairsFirst(s) && NewlinePairsFirst(t)
  {
    forall i: nat, j: nat | CrLfAt(s, i) && LfAt(s, j)
      ensures j < i
    {
      AtFront(s, t, i);
      AtFront(s, t, j);
    }
    forall i: nat, j: nat | CrLfAt(t, i) && LfAt(t, j)
      ensures j < i
    {
      AtBack(s, t, i);
      AtBack(s, t, j);
    }
  }

  /** What follows then does not move the first separator. */
  lemma SeparatorStays(s: seq<byte>, t: seq<byte>, pos: nat)
    requires NewlinePairsFirst(s + t) && SeparatorPos(s) == Some(pos)
    ensures SeparatorPos(s + t) == Some(pos)
  {
    SeparatorIs(s, pos);
    forall j: nat
      ensures j + 2 <= |s| ==> (LfAt(s + t, j) <==> LfAt(s, j))
      ensures j + 4 <= |s| ==> (CrLfAt(s + t, j) <==> CrLfAt(s, j))
    {
      AtFront(s, t, j);
    }
    SeparatorIs(s + t, pos);
  }

  lemma {:induction false} DrainedInParts(frames: seq<seq<byte>>, s: seq<byte>, t: seq<byte>)
    requires NewlinePairsFirst(s + t)
    ensures Drained(Drained(frames, s).0, Drained(frames, s).1 + t) == Drained(frames, s + t)
    decreases |s|
  {
    match SeparatorPos(s)
    case None =>
    case Some(pos) =>
      SeparatorStays(s, t, pos);
      var frame, rest := s[..pos + 2], s[pos + 2..];
      assert (s + t)[..pos + 2] == frame && (s + t)[pos + 2..] == rest + t;
      assert s + t == frame + (rest + t);
      PairsFirstParts(frame, rest + t);
      DrainedInParts(frames + [frame], rest, t);
  }

  /** Such a stream is cut as if it had arrived at once. */
  lemma {:induction false} FramedAsOne(chunks: seq<seq<byte>>)
    requires NewlinePairsFirst(Concat(chunks))
    ensures Framed(chunks) == Drained([], Concat(chunks))
    decreases |chunks|
  {
    if chunks != [] {
      var n := |chunks| - 1;
      PairsFirstParts(Concat(chunks[..n]), chunks[n]);
      FramedAsOne(chunks[..n]);
      DrainedInParts([], Concat(chunks[..n]), chunks[n]);
    }
  }

  lemma DifferBehind(frame: seq<byte>, a: seq<seq<byte>>, b: seq<seq<byte>>)
    requires Drained([], frame) == ([frame], []) && Framed(a).0 != Framed(b).0
    ensures Framed([frame] + a).0 != Framed([frame] + b).0
    ensures Concat([frame] + a) == frame + Concat(a) && Concat([frame] + b) == frame + Concat(b)
  {
    FramedBehind(frame, a);
    FramedBehind(frame, b);
    assert Framed([frame] + a).0[1..] == Framed(a).0 && Framed([frame] + b).0[1..] == Framed(b).0;
  }

  /** Any other stream is cut in two ways. */
  lemma {:induction false} TwoSchedules(s: seq<byte>, i: nat, j: nat) returns (a: seq<seq<byte>>, b: seq<seq<byte>>)
    requires CrLfAt(s, i) && LfAt(s, j) && i < j
    ensures Concat(a) == s && Concat(b) == s && Framed(a).0 != Framed(b).0
    decreases |s|
  {
    var pos := FirstLf(s, 0);
    SeparatorIs(s, pos);
    if pos < i {
      var frame, rest := s[..pos + 2], s[pos + 2..];
      assert s == frame + rest;
      AtBack(frame, rest, i - pos - 2);
      AtBack(frame, rest, j - pos - 2);
      var a', b' := TwoSchedules(rest, i - pos - 2, j - pos - 2);
      WholeFrame(s, pos);
      DifferBehind(frame, a', b');
      a, b := [frame] + a', [frame] + b';
    } else {
      var early := FirstCrLf(s, 0);
      CutEarly(s, early, pos);
      a, b := [s], [s[..early + 4]] + [s[early + 4..]];
    }
  }

  /** A frame that arrives by itself is cut off whole. */
  lemma WholeFrame(s: seq<byte>, pos: nat)
    requires SeparatorPos(s) == Some(pos)
    ensures Drained([], s[..pos + 2]) == ([s[..pos + 2]], [])
  {
    var frame, rest := s[..pos + 2], s[pos + 2..];
    assert s == frame + rest;
    SeparatorIs(s, pos);
    forall j: nat
      ensures j + 2 <= |frame| ==> (LfAt(s, j) <==> LfAt(frame, j))
      ensures j + 4 <= |frame| ==> (CrLfAt(s, j) <==> CrLfAt(frame, j))
    {
      AtFront(frame, rest, j);
    }
    SeparatorIs(frame, pos);
    assert frame[..pos + 2] == frame && frame[pos + 2..] == [];
    assert [] + [frame] == [frame];
  }

  /** The first frame is the one that is cut off first. */
  lemma FirstFrame(s: seq<byte>, pos: nat)
    requires SeparatorPos(s) == Some(pos)
    ensures Drained([], s).0 != [] && Drained([], s).0[0] == s[..pos + 2]
  {
    var frame := s[..pos + 2];
    assert [] + [frame] == [frame] + [];
    DrainedBehind([frame], [], s[pos + 2..]);
  }

  /** Up to the end of its first pair of CRLFs, that is where the stream is cut. */
  lemma EarlySeparator(s: seq<byte>, i: nat)
    requires CrLfAt(s, i) && (forall k: nat :: k < i ==> !CrLfAt(s, k)) && forall k: nat :: k < i ==> !LfAt(s, k)
    ensures SeparatorPos(s[..i + 4]) == Some(i + 2)
  {
    var early := s[..i + 4];
    forall k: nat
      ensures k + 2 <= |early| ==> (LfAt(s, k) <==> LfAt(early, k))
      ensures k + 4 <= |early| ==> (CrLfAt(s, k) <==> CrLfAt(early, k))
    {
      assert s == early + s[i + 4..];
      AtFront(early, s[i + 4..], k);
    }
    SeparatorIs(early, i + 2);
  }

  lemma FrameInTwo(early: seq<byte>, late: seq<byte>)
    requires |early| >= 2 && SeparatorPos(early) == Some(|early| - 2)
    ensures Concat([early] + [late]) == early + late
    ensures Framed([early] + [late]).0 != [] && Framed([early] + [late]).0[0] == early
  {
    assert early[..|early|] == early;
    WholeFrame(early, |early| - 2);
    FramedBehind(early, [late]);
    FramedAtOnce(late);
  }

  lemma FrameAtOnce(s: seq<byte>, pos: nat)
    requires SeparatorPos(s) == Some(pos)
    ensures Concat([s]) == s && Framed([s]).0 != [] && |Framed([s]).0[0]| == pos + 2
  {
    FramedAtOnce(s);
    FirstFrame(s, pos);
  }

  /** At once, the pair of newlines ends the first frame; with a pause behind it, the pair of CRLFs does. */
  lemma CutEarly(s: seq<byte>, i: nat, j: nat)
    requires CrLfAt(s, i) && forall k: nat :: k < i ==> !CrLfAt(s, k)
    requires LfAt(s, j) && forall k: nat :: k < j ==> !LfAt(s, k)
    requires i < j
    ensures var early, late := s[..i + 4], s[i + 4..];
            && Concat([s]) == s && Concat([early] + [late]) == s
            && Framed([s]).0 != Framed([early] + [late]).0
  {
    EarlySeparator(s, i);
    FrameInTwo(s[..i + 4], s[i + 4..]);
    assert s[..i + 4] + s[i + 4..] == s;
    SeparatorIs(s, j);
    FrameAtOnce(s, j);
    FarApart(s, i, j);
  }

  lemma FarApart(s: seq<byte>, i: nat, j: nat)
    requires CrLfAt(s, i) && LfAt(s, j) && i < j
    ensures i + 2 < j
  {
  }

  /** The frames are the same for all chunks exactly when no pair of CRLFs comes before a pair of newlines. */
  lemma FramesAgreeExactly(s: seq<byte>)
    ensures (forall a, b :: Concat(a) == s && Concat(b) == s ==> Framed(a) == Framed(b)) <==> NewlinePairsFirst(s)
  {
    if NewlinePairsFirst(s) {
      forall a, b | Concat(a) == s && Concat(b) == s
        ensures Framed(a) == Framed(b)
      {
        FramedAsOne(a);
        FramedAsOne(b);
      }
    } else {
      var i: nat, j: nat :| CrLfAt(s, i) && LfAt(s, j) && j >= i;
      assert i != j;
      var a, b := TwoSchedules(s, i, j);
    }
  }

  lemma OneFrame(s: seq<byte>)
    requires |s| >= 2 && SeparatorPos(s) == Some(|s| - 2)
    ensures Drained([], s) == ([s], [])
    ensures Framed([s]) == ([s], []) && Concat([s]) == s
  {
    assert s[..|s|] == s;
    WholeFrame(s, |s| - 2);
    FramedAtOnce(s);
  }

  lemma FrameAndRest(t: seq<byte>, u: seq<byte>)
    requires |t| >= 2 && SeparatorPos(t) == Some(|t| - 2) && SeparatorPos(u) == None
    ensures Framed([t, u]) == ([t], u) && Concat([t, u]) == t + u
  {
    OneFrame(t);
    FramedAtOnce(u);
    assert Drained([], u) == ([], u);
    FramedBehind(t, [u]);
    assert [t] + [u] == [t, u] && [t] + [] == [t];
  }

  /** For example, the frames of five bytes that arrive at once, or the last one alone, differ. */
  lemma FramesDiffer()
    ensures var whole, cut := [[13, 10, 13, 10, 10]], [[13, 10, 13, 10], [10]];
            && Concat(whole) == Concat(cut)
            && Framed(whole) == ([[13, 10, 13, 10, 10]], []) && Framed(cut) == ([[13, 10, 13, 10]], [10])
  {
    SeparatorIs([13, 10, 13, 10, 10], 3);
    SeparatorIs([13, 10, 13, 10], 2);
    OneFrame([13, 10, 13, 10, 10]);
    FrameAndRest([13, 10, 13, 10], [10]);
  }

  // ---- when what stays in the buffer depends on the chunks ----

  /** Cut off by a pair of newlines: there is no other in the frame. */
  ghost predicate EndsAtNewlines(frame: seq<byte>) {
    |frame| >= 2 && LfAt(frame, |frame| - 2) && forall j: nat :: LfAt(frame, j) ==> j == |frame| - 2
  }

  /** Cut off by a pair of CRLFs: there is no other, and no pair of newlines. */
  ghost predicate EndsAtCrLfs(frame: seq<byte>) {
    && |frame| >= 4 && CrLfAt(frame, |frame| - 4)
    && forall j: nat :: !LfAt(frame, j) && (CrLfAt(frame, j) ==> j == |frame| - 4)
  }

  ghost predicate AllFrames(frames: seq<seq<byte>>) {
    forall frame :: frame in frames ==> EndsAtNewlines(frame) || EndsAtCrLfs(frame)
  }

  lemma CutIsFrame(buf: seq<byte>, pos: nat)
    requires SeparatorPos(buf) == Some(pos)
    ensures EndsAtNewlines(buf[..pos + 2]) || EndsAtCrLfs(buf[..pos + 2])
  {
    var frame, rest := buf[..pos + 2], buf[pos + 2..];
    assert buf == frame + rest;
    SeparatorIs(buf, pos);
    forall j: nat
      ensures j + 2 <= |frame| ==> (LfAt(buf, j) <==> LfAt(frame, j))
      ensures j + 4 <= |frame| ==> (CrLfAt(buf, j) <==> CrLfAt(frame, j))
    {
      AtFront(frame, rest, j);
    }
  }

  lemma ConcatNext(frames: seq<seq<byte>>, frame: seq<byte>)
    ensures Concat(frames + [frame]) == Concat(frames) + frame
  {
    assert (frames + [frame])[..|frames|] == frames;
  }

  /** Draining cuts off frames, loses no byte and leaves no separator. */
  lemma {:induction false} DrainedFrames(frames: seq<seq<byte>>, buf: seq<byte>)
    requires AllFrames(frames)
    ensures AllFrames(Drained(frames, buf).0) && NoSeparator(Drained(frames, buf).1)
    ensures Concat(Drained(frames, buf).0) + Drained(frames, buf).1 == Concat(frames) + buf
    decreases |buf|
  {
    match SeparatorPos(buf)
    case None =>
      NothingDrained(frames, buf);
      assert FirstLf(buf, 0) == |buf| && FirstCrLf(buf, 0) == |buf|;
    case Some(pos) =>
      var frame, rest := buf[..pos + 2], buf[pos + 2..];
      CutIsFrame(buf, pos);
      DrainedFrames(frames + [frame], rest);
      ConcatNext(frames, frame);
      Associate(Concat(frames), frame, rest);
      assert frame + rest == buf;
  }

  lemma {:induction false} FramedFrames(chunks: seq<seq<byte>>)
    ensures AllFrames(Framed(chunks).0) && NoSeparator(Framed(chunks).1)
    ensures Concat(Framed(chunks).0) + Framed(chunks).1 == Concat(chunks)
    decreases |chunks|
  {
    if chunks != [] {
      var front, last := chunks[..|chunks| - 1], chunks[|chunks| - 1];
      FramedFrames(front);
      DrainedFrames(Framed(front).0, Framed(front).1 + last);
      Associate(Concat(Framed(front).0), Framed(front).1, last);
    }
  }

  const CRLF: seq<byte> := [13, 10]
  const CRLFS: seq<byte> := [13, 10, 13, 10]
  const LF: seq<byte> := [10]

  predicate EndsWithCrLf(s: seq<byte>) {
    |s| >= 2 && s[|s| - 2] == 13 && s[|s| - 1] == 10
  }

  /** An even number of CRLFs, not one more in front of them, then newlines, and a rest without separator. */
  ghost predicate OpenAt(s: seq<byte>, front: seq<byte>, pairs: nat, newlines: nat, rest: seq<byte>) {
    && s == front + Repeat(CRLFS, pairs) + Repeat(LF, newlines) + rest
    && pairs > 0 && newlines > 0 && !EndsWithCrLf(front) && !(LF <= rest) && NoSeparator(rest)
  }

  ghost predicate CutOpen(s: seq<byte>) {
    exists front, pairs, newlines, rest :: OpenAt(s, front, pairs, newlines, rest)
  }

  // ---- two ways to cut make an open cut ----

  lemma FrameEnds(frame: seq<byte>)
    requires EndsAtNewlines(frame) || EndsAtCrLfs(frame)
    ensures frame[|frame| - 1] == 10 && EndsWithSeparator(frame)
    ensures frame[|frame| - 2] == 13 ==> EndsAtCrLfs(frame)
    ensures frame[|frame| - 2] == 10 ==> EndsAtNewlines(frame)
  {
  }

  lemma FramesEnd(frames: seq<seq<byte>>)
    requires AllFrames(frames) && Concat(frames) != []
    ensures EndsWithSeparator(Concat(frames)) && frames != []
  {
    var n := |frames| - 1;
    FrameEnds(frames[n]);
    SeparatorExtends(Concat(frames[..n]), frames[n]);
  }

  /** Before the last frame. */
  lemma LastFrame(frames: seq<seq<byte>>) returns (front: seq<seq<byte>>, frame: seq<byte>)
    requires AllFrames(frames) && Concat(frames) != []
    ensures frames != [] && front == frames[..|frames| - 1]
    ensures AllFrames(front) && Concat(frames) == Concat(front) + frame
    ensures EndsAtNewlines(frame) || EndsAtCrLfs(frame)
  {
    front, frame := frames[..|frames| - 1], frames[|frames| - 1];
  }

  lemma OnePair(s: seq<byte>)
    ensures Repeat(s, 1) == s
  {
    assert Repeat(s, 0) + s == s;
  }

  /** What is cut behind a pair of CRLFs was cut behind every pair of that run. */
  lemma {:induction false} CrLfsBack(frames: seq<seq<byte>>) returns (front: seq<byte>, pairs: nat)
    requires AllFrames(frames) && |Concat(frames)| >= 4 && CrLfAt(Concat(frames), |Concat(frames)| - 4)
    ensures pairs > 0 && !EndsWithCrLf(front) && Concat(frames) == front + Repeat(CRLFS, pairs)
    decreases |frames|
  {
    var before, frame := LastFrame(frames);
    CrLfFrame(Concat(before), frame);
    if |frame| == 4 && EndsWithCrLf(Concat(before)) {
      BeforeCrLf(before);
      front, pairs := CrLfsBack(before);
      Associate(front, Repeat(CRLFS, pairs), CRLFS);
      pairs := pairs + 1;
    } else {
      front, pairs := FirstPair(before, frame);
    }
  }

  lemma FirstPair(before: seq<seq<byte>>, frame: seq<byte>) returns (front: seq<byte>, pairs: nat)
    requires AllFrames(before) && EndsAtCrLfs(frame) && frame == frame[..|frame| - 4] + CRLFS
    requires |frame| != 4 || !EndsWithCrLf(Concat(before))
    ensures pairs > 0 && !EndsWithCrLf(front) && Concat(before) + frame == front + Repeat(CRLFS, pairs)
  {
    if Concat(before) != [] {
      FramesEnd(before);
    }
    front, pairs := Concat(before) + frame[..|frame| - 4], 1;
    FrontOfFrame(Concat(before), frame);
    OnePair(CRLFS);
    Associate(Concat(before), frame[..|frame| - 4], CRLFS);
  }

  lemma CrLfFrame(front: seq<byte>, frame: seq<byte>)
    requires EndsAtNewlines(frame) || EndsAtCrLfs(frame)
    requires |front + frame| >= 4 && CrLfAt(front + frame, |front + frame| - 4)
    ensures EndsAtCrLfs(frame) && frame == frame[..|frame| - 4] + CRLFS
    ensures |frame| == 4 ==> frame == CRLFS
  {
    var all := front + frame;
    assert frame[|frame| - 2] == all[|all| - 2] == 13;
    FrameEnds(frame);
  }

  lemma BeforeCrLf(frames: seq<seq<byte>>)
    requires AllFrames(frames) && EndsWithCrLf(Concat(frames))
    ensures |Concat(frames)| >= 4 && CrLfAt(Concat(frames), |Concat(frames)| - 4)
  {
    FramesEnd(frames);
  }

  lemma FrontOfFrame(before: seq<byte>, frame: seq<byte>)
    requires EndsAtCrLfs(frame) && (before == [] || EndsWithSeparator(before))
    requires |frame| != 4 || !EndsWithCrLf(before)
    ensures !EndsWithCrLf(before + frame[..|frame| - 4])
  {
    var n := |frame| - 4;
    var front := before + frame[..n];
    if n >= 2 {
      assert !CrLfAt(frame, n - 2);
      assert front[|front| - 2] == frame[n - 2] && front[|front| - 1] == frame[n - 1];
    } else if n == 1 && before != [] {
      assert front[|front| - 2] == before[|before| - 1];
    } else if n == 0 {
      assert front == before;
    }
  }

  /** Two ways to cut that end one newline apart have differed since a run of CRLFs. */
  lemma {:induction false} OneApart(early: seq<seq<byte>>, late: seq<seq<byte>>)
    returns (front: seq<byte>, pairs: nat, newlines: nat)
    requires AllFrames(early) && AllFrames(late) && Concat(early) != []
    requires Concat(late) == Concat(early) + LF
    ensures pairs > 0 && newlines > 0 && !EndsWithCrLf(front)
    ensures Concat(late) == front + Repeat(CRLFS, pairs) + Repeat(LF, newlines)
    decreases |early| + |late|
  {
    var x := Concat(early);
    FramesEnd(early);
    if LfAt(x, |x| - 2) {
      var before, frame := LastFrame(late);
      NewlineFrame(Concat(before), frame, x);
      front, pairs, newlines := OneApart(before, early);
      Associate(front + Repeat(CRLFS, pairs), Repeat(LF, newlines), LF);
      newlines := newlines + 1;
    } else {
      front, pairs := CrLfsBack(early);
      newlines := 1;
      OnePair(LF);
    }
  }

  lemma NewlineFrame(before: seq<byte>, frame: seq<byte>, x: seq<byte>)
    requires EndsAtNewlines(frame) || EndsAtCrLfs(frame)
    requires |x| >= 2 && LfAt(x, |x| - 2) && before + frame == x + LF
    ensures before != [] && x == before + LF
  {
    var all := before + frame;
    assert frame[|frame| - 2] == all[|all| - 2] == 10;
    FrameEnds(frame);
    if |frame| >= 3 {
      assert frame[|frame| - 3] == all[|all| - 3] == 10;
      assert LfAt(frame, |frame| - 3);
    }
    assert before == all[..|all| - 2];
  }

  lemma CutIsFinal(s: seq<byte>, frames: seq<seq<byte>>, rest: seq<byte>)
    requires AllFrames(frames) && NoSeparator(rest) && Concat(frames) + rest == s
    ensures FinalCut(s, |Concat(frames)|) && s[..|Concat(frames)|] == Concat(frames)
  {
    var c := |Concat(frames)|;
    assert s[..c] == Concat(frames) && s[c..] == rest;
    if c > 0 {
      FramesEnd(frames);
    }
  }

  /** An even and an odd number of CRLFs do not give the same text. */
  lemma {:induction false} OddCrLfs(front: seq<byte>, pairs: nat, front': seq<byte>, pairs': nat)
    requires !EndsWithCrLf(front) && !EndsWithCrLf(front')
    ensures front + Repeat(CRLFS, pairs) + CRLF != front' + Repeat(CRLFS, pairs')
    decreases pairs + pairs'
  {
    var all := front + Repeat(CRLFS, pairs) + CRLF;
    assert EndsWithCrLf(all);
    if pairs' == 0 {
      assert front' + Repeat(CRLFS, 0) == front';
    } else {
      OddCrLfs(front', pairs' - 1, front, pairs);
      Associate(front', Repeat(CRLFS, pairs' - 1), CRLFS);
      SameFront(front + Repeat(CRLFS, pairs), front' + Repeat(CRLFS, pairs' - 1));
    }
  }

  lemma SameFront(x: seq<byte>, y: seq<byte>)
    ensures x + CRLF == y + CRLFS ==> x == y + CRLF
  {
    if x + CRLF == y + CRLFS {
      assert (x + CRLF)[..|x|] == x && (y + CRLFS)[..|x|] == y + CRLF;
    }
  }

  /** Two cuts of one stream are never a CRLF apart. */
  lemma NotCrLfApart(early: seq<seq<byte>>, late: seq<seq<byte>>)
    requires AllFrames(early) && AllFrames(late) && Concat(early) != []
    ensures Concat(late) != Concat(early) + CRLF
  {
    if Concat(late) == Concat(early) + CRLF {
      FramesEnd(early);
      FramesEnd(late);
      CrLfPairAt(Concat(early));
      var front, pairs := CrLfsBack(early);
      var front', pairs' := CrLfsBack(late);
      OddCrLfs(front, pairs, front', pairs');
      assert false;
    }
  }

  lemma CrLfPairAt(x: seq<byte>)
    requires EndsWithSeparator(x) && EndsWithSeparator(x + CRLF)
    ensures |x| >= 4 && CrLfAt(x, |x| - 4) && CrLfAt(x + CRLF, |x + CRLF| - 4)
  {
  }

  /** So the later of two differs by one newline. */
  lemma ApartByNewline(s: seq<byte>, c: nat, e: nat)
    requires FinalCut(s, c) && FinalCut(s, e) && c < e
    ensures c > 0 && (s[..e] == s[..c] + LF || s[..e] == s[..c] + CRLF)
  {
    FinalCutNear(s, c);
    FinalCutNear(s, e);
    assert s[..e][e - 1] == 10;
    assert s[c..LastSeparatorEnd(s)][e - c - 1] == s[e - 1];
    assert s[..e] == s[..c] + s[c..e];
  }

  lemma NoNewlineNext(rest: seq<byte>)
    requires NoSeparator(LF + rest)
    ensures !(LF <= rest)
  {
    if LF <= rest {
      assert LfAt(LF + rest, 0);
    }
  }

  /** Two ways to cut a stream that leave different rests. */
  lemma ApartIsOpen(s: seq<byte>, early: seq<seq<byte>>, late: seq<seq<byte>>, more: seq<byte>, rest: seq<byte>)
    requires AllFrames(early) && AllFrames(late) && NoSeparator(more) && NoSeparator(rest)
    requires Concat(early) + more == s && Concat(late) + rest == s && |rest| < |more|
    ensures CutOpen(s)
  {
    CutIsFinal(s, early, more);
    CutIsFinal(s, late, rest);
    ApartByNewline(s, |Concat(early)|, |Concat(late)|);
    NotCrLfApart(early, late);
    var front, pairs, newlines := OneApart(early, late);
    MoreThanRest(Concat(early), more, rest);
    NoNewlineNext(rest);
    assert OpenAt(s, front, pairs, newlines, rest);
  }

  lemma MoreThanRest(cut: seq<byte>, more: seq<byte>, rest: seq<byte>)
    requires cut + more == cut + LF + rest
    ensures more == LF + rest
  {
    assert (cut + more)[|cut|..] == more;
    assert (cut + LF + rest)[|cut|..] == LF + rest;
  }

  // ---- an open cut is made in two ways ----

  function Parity(n: nat): nat {
    if n < 2 then n else Parity(n - 2)
  }

  lemma {:induction false} ParityFlips(n: nat)
    requires n > 0
    ensures Parity(n) != Parity(n - 1)
    decreases n
  {
    if n >= 3 {
      ParityFlips(n - 2);
    }
  }

  /** Newlines by themselves are cut in pairs. */
  lemma {:induction false} NewlinesDrained(frames: seq<seq<byte>>, newlines: nat, rest: seq<byte>)
    requires NoSeparator(rest) && !(LF <= rest)
    ensures |Drained(frames, Repeat(LF, newlines) + rest).1| == Parity(newlines) + |rest|
    decreases newlines
  {
    if newlines < 2 {
      FewNewlines(frames, newlines, rest);
    } else {
      var frames' := TwoDrained(frames, newlines, rest);
      NewlinesDrained(frames', newlines - 2, rest);
    }
  }

  lemma TwoDrained(frames: seq<seq<byte>>, newlines: nat, rest: seq<byte>) returns (frames': seq<seq<byte>>)
    requires newlines >= 2
    ensures Drained(frames, Repeat(LF, newlines) + rest) == Drained(frames', Repeat(LF, newlines - 2) + rest)
  {
    FirstTwo(newlines, rest);
    var buf := Repeat(LF, newlines) + rest;
    DrainOnce(frames, buf, 0);
    frames' := frames + [buf[..2]];
  }

  lemma FirstTwo(newlines: nat, rest: seq<byte>)
    requires newlines >= 2
    ensures var buf := Repeat(LF, newlines) + rest;
            SeparatorPos(buf) == Some(0) && |buf| >= 2 && buf[2..] == Repeat(LF, newlines - 2) + rest
  {
    Newlines(newlines);
    Newlines(newlines - 2);
    SeparatorIs(Repeat(LF, newlines) + rest, 0);
  }

  lemma {:induction false} Newlines(n: nat)
    ensures forall i :: 0 <= i < n ==> Repeat(LF, n)[i] == 10
    ensures |Repeat(LF, n)| == n
  {
    if n > 0 {
      Newlines(n - 1);
    }
  }

  lemma FewNewlines(frames: seq<seq<byte>>, newlines: nat, rest: seq<byte>)
    requires newlines < 2 && NoSeparator(rest) && !(LF <= rest)
    ensures |Drained(frames, Repeat(LF, newlines) + rest).1| == newlines + |rest|
  {
    Newlines(newlines);
    forall i: nat
      ensures !LfAt(Repeat(LF, newlines) + rest, i) && !CrLfAt(Repeat(LF, newlines) + rest, i)
    {
      if i >= newlines {
        AtBack(Repeat(LF, newlines), rest, i - newlines);
      }
    }
    NothingDrained(frames, Repeat(LF, newlines) + rest);
  }

  /** However it arrives, a text that ends with an even number of CRLFs is cut at its end. */
  lemma EvenCrLfsCut(frames: seq<seq<byte>>, rest: seq<byte>, front: seq<byte>, pairs: nat)
    requires AllFrames(frames) && NoSeparator(rest) && pairs > 0 && !EndsWithCrLf(front)
    requires Concat(frames) + rest == front + Repeat(CRLFS, pairs)
    ensures rest == []
  {
    if rest != [] {
      var odd := front + Repeat(CRLFS, pairs - 1) + CRLF;
      assert Concat(frames) + rest == odd + CRLF;
      OddEndsInSeparator(front, pairs);
      CutIsFinal(odd + CRLF, frames, rest);
      ShortRest(odd, Concat(frames), rest);
      CrLfPairAt(Concat(frames));
      var front', pairs' := CrLfsBack(frames);
      OddCrLfs(front, pairs - 1, front', pairs');
      assert false;
    }
  }

  lemma OddEndsInSeparator(front: seq<byte>, pairs: nat)
    requires pairs > 0
    ensures EndsWithSeparator(front + Repeat(CRLFS, pairs - 1) + CRLF + CRLF)
  {
  }

  lemma ShortRest(odd: seq<byte>, cut: seq<byte>, rest: seq<byte>)
    requires cut + rest == odd + CRLF && EndsWithSeparator(odd + CRLF) && FinalCut(odd + CRLF, |cut|) && rest != []
    ensures cut == odd && EndsWithSeparator(cut)
  {
    var s := odd + CRLF;
    FinalCutNear(s, |cut|);
    assert s[..|s|] == s && LastSeparatorEnd(s) == |s|;
    assert s[..|cut|] == cut && s[|cut|..|s|] == rest;
    assert cut[|cut| - 1] == 10 && s[|s| - 2] == 13;
    assert |rest| == 2;
    assert s[..|odd|] == odd;
  }

  /** With a pause behind the CRLFs the newlines are cut in pairs by themselves. */
  lemma PauseBehindCrLfs(front: seq<byte>, pairs: nat, newlines: nat, rest: seq<byte>)
    requires pairs > 0 && !EndsWithCrLf(front) && NoSeparator(rest) && !(LF <= rest)
    ensures var chunks := [front + Repeat(CRLFS, pairs)] + [Repeat(LF, newlines) + rest];
            && Concat(chunks) == front + Repeat(CRLFS, pairs) + (Repeat(LF, newlines) + rest)
            && |Framed(chunks).1| == Parity(newlines) + |rest|
  {
    var first, next := front + Repeat(CRLFS, pairs), Repeat(LF, newlines) + rest;
    FramedAtOnce(first);
    FramedFrames([first]);
    EvenCrLfsCut(Framed([first]).0, Framed([first]).1, front, pairs);
    FramedNext([first], next);
    NewlinesDrained(Framed([first]).0, newlines, rest);
    assert [] + next == next;
  }

  /** With a pause in front of the last CRLF, that CRLF and a newline end the frame. */
  lemma PauseBeforeCrLf(front: seq<byte>, newlines: nat, rest: seq<byte>)
    requires newlines > 0 && NoSeparator(rest) && !(LF <= rest)
    ensures var chunks := [front] + [CRLF + (Repeat(LF, newlines) + rest)];
            && Concat(chunks) == front + (CRLF + (Repeat(LF, newlines) + rest))
            && |Framed(chunks).1| == Parity(newlines - 1) + |rest|
  {
    var next := CRLF + (Repeat(LF, newlines) + rest);
    FramedAtOnce(front);
    FramedFrames([front]);
    var frames, buf := Framed([front]).0, Framed([front]).1;
    FramedNext([front], next);
    CrLfNewline(buf, newlines, rest);
    var whole := buf + next;
    DrainOnce(frames, whole, |buf| + 1);
    NewlinesDrained(frames + [whole[..|buf| + 3]], newlines - 1, rest);
  }

  lemma CrLfNewline(buf: seq<byte>, newlines: nat, rest: seq<byte>)
    requires NoSeparator(buf) && newlines > 0
    ensures var whole := buf + (CRLF + (Repeat(LF, newlines) + rest));
            && SeparatorPos(whole) == Some(|buf| + 1)
            && whole[|buf| + 3..] == Repeat(LF, newlines - 1) + rest
  {
    var next := CRLF + (Repeat(LF, newlines) + rest);
    var whole := buf + next;
    Newlines(newlines);
    Newlines(newlines - 1);
    forall j: nat | j < |buf| + 1
      ensures !LfAt(whole, j)
    {
      AtFront(buf, next, j);
    }
    SeparatorIs(whole, |buf| + 1);
  }

  lemma OpenInTwoWays(s: seq<byte>, front: seq<byte>, pairs: nat, newlines: nat, rest: seq<byte>)
    returns (a: seq<seq<byte>>, b: seq<seq<byte>>)
    requires OpenAt(s, front, pairs, newlines, rest)
    ensures Concat(a) == s && Concat(b) == s && |Framed(a).1| != |Framed(b).1|
  {
    var next := Repeat(LF, newlines) + rest;
    var odd := front + Repeat(CRLFS, pairs - 1) + CRLF;
    assert s == front + Repeat(CRLFS, pairs) + next;
    assert s == odd + (CRLF + next);
    PauseBehindCrLfs(front, pairs, newlines, rest);
    PauseBeforeCrLf(odd, newlines, rest);
    ParityFlips(newlines);
    a, b := [front + Repeat(CRLFS, pairs)] + [next], [odd] + [CRLF + next];
  }

  /** What stays in the buffer is the same for all chunks exactly when the cut is not open. */
  lemma RestsAgreeExactly(s: seq<byte>)
    ensures (forall a, b :: Concat(a) == s && Concat(b) == s ==> Framed(a).1 == Framed(b).1) <==> !CutOpen(s)
  {
    if CutOpen(s) {
      var front, pairs, newlines, rest :| OpenAt(s, front, pairs, newlines, rest);
      var a, b := OpenInTwoWays(s, front, pairs, newlines, rest);
    } else {
      forall a, b | Concat(a) == s && Concat(b) == s
        ensures Framed(a).1 == Framed(b).1
      {
        FramedFrames(a);
        FramedFrames(b);
        SameRest(s, Framed(a).0, Framed(a).1, Framed(b).0, Framed(b).1);
      }
    }
  }

  lemma SameRest(s: seq<byte>, early: seq<seq<byte>>, more: seq<byte>, late: seq<seq<byte>>, rest: seq<byte>)
    requires AllFrames(early) && AllFrames(late) && NoSeparator(more) && NoSeparator(rest)
    requires Concat(early) + more == s && Concat(late) + rest == s && !CutOpen(s)
    ensures more == rest
  {
    if |rest| < |more| {
      ApartIsOpen(s, early, late, more, rest);
    } else if |more| < |rest| {
      ApartIsOpen(s, late, early, rest, more);
    } else {
      assert s[|s| - |more|..] == more && s[|s| - |rest|..] == rest;
    }
  }
}
