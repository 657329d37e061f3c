/**
 * Reading a file that only grows, in polls: every poll cuts the complete pieces off
 * the bytes behind an offset and keeps the last `cap` events they give. `cut` finds
 * the first complete piece, `render` gives its events.
 */
module GrowingFile {
  import opened Wrappers
  import opened Seqs
  import opened Chopping

  /** The events of the pieces `bytes` starts with. */
  function Read<T, E>(cut: seq<T> -> nat, render: seq<T> -> seq<E>, bytes: seq<T>): seq<E> {
    FlatMap(render, Chop(cut, bytes))
  }

  function LastN<T>(s: seq<T>, n: nat): seq<T> {
    if |s| > n then s[|s| - n..] else s
  }

  datatype Cursor<E> = Cursor(events: seq<E>, offset: nat)

  /** One poll: the length `metadata` reported and the bytes that opening the file gave. */
  datatype Look<T> = Look(length: Option<nat>, bytes: Option<seq<T>>)

  function From<T>(bytes: seq<T>, offset: nat): seq<T> {
    if offset <= |bytes| then bytes[offset..] else []
  }

  function Polled<T, E>(cut: seq<T> -> nat, render: seq<T> -> seq<E>, cap: nat, cursor: Cursor<E>, look: Look<T>)
    : Cursor<E>
  {
    match look
    case Look(Some(length), Some(bytes)) =>
      if length <= cursor.offset then cursor
      else
        var rest := From(bytes, cursor.offset);
        Cursor(LastN(cursor.events + Read(cut, render, rest), cap), cursor.offset + Chopped(cut, rest))
    case _ => cursor
  }

  function Run<T, E>(cut: seq<T> -> nat, render: seq<T> -> seq<E>, cap: nat, cursor: Cursor<E>, looks: seq<Look<T>>)
    : Cursor<E>
  {
    if looks == [] then cursor
    else Polled(cut, render, cap, Run(cut, render, cap, cursor, looks[..|looks| - 1]), looks[|looks| - 1])
  }

  /**
   * What a reader that showed `shown` at offset `start` shows once it has read the
   * complete pieces of `growth`.
   */
  function CaughtUp<T, E>(cut: seq<T> -> nat, render: seq<T> -> seq<E>, cap: nat, shown: seq<E>, start: nat,
                          growth: seq<T>): Cursor<E> {
    Cursor(LastN(shown + Read(cut, render, growth), cap), start + Chopped(cut, growth))
  }

  lemma ReadConcat<T(!new), E>(cut: seq<T> -> nat, render: seq<T> -> seq<E>, s: seq<T>, t: seq<T>)
    requires Local(cut) && Chopped(cut, s) == |s|
    ensures Read(cut, render, s + t) == Read(cut, render, s) + Read(cut, render, t)
    ensures Chopped(cut, s + t) == |s| + Chopped(cut, t)
  {
    ChopConcat(cut, s, t);
    FlatMapConcat(render, Chop(cut, s), Chop(cut, t));
  }

  lemma ReadFront<T(!new), E>(cut: seq<T> -> nat, render: seq<T> -> seq<E>, s: seq<T>)
    requires Local(cut)
    ensures var n := Chopped(cut, s);
            Chopped(cut, s[..n]) == n && Read(cut, render, s[..n]) == Read(cut, render, s)
  {
    ChopFront(cut, s);
  }

  lemma LastNSplit<T>(shown: seq<T>, a: seq<T>, b: seq<T>, n: nat)
    ensures LastN(LastN(shown + a, n) + b, n) == LastN(shown + (a + b), n)
  {
    Associate(shown, a, b);
  }

  /** One piece off the front, after `found` has been read. */
  lemma ReadStep<T, E>(cut: seq<T> -> nat, render: seq<T> -> seq<E>, found: seq<E>, unread: seq<T>)
    requires 0 < cut(unread) <= |unread|
    ensures var n := cut(unread);
            && Chopped(cut, unread) == n + Chopped(cut, unread[n..])
            && found + Read(cut, render, unread)
               == found + render(unread[..n]) + Read(cut, render, unread[n..])
  {
    var n := cut(unread);
    var line, rest := unread[..n], Chop(cut, unread[n..]);
    FlatMapConcat(render, [line], rest);
    FlatMapOne(render, line);
    Associate(found, render(line), FlatMap(render, rest));
  }

  lemma ReadNothing<T, E>(cut: seq<T> -> nat, render: seq<T> -> seq<E>, found: seq<E>, unread: seq<T>)
    requires cut(unread) == 0
    ensures Chopped(cut, unread) == 0
    ensures found + Read(cut, render, unread) == found
  {
  }

  // ---- schedules ----

  /** The file under the polls: it starts as `seed` and is only appended to. */
  ghost predicate AppendOnly<T>(seed: seq<T>, files: seq<seq<T>>) {
    && (forall i :: 0 <= i < |files| ==> seed <= files[i])
    && (forall i, j :: 0 <= i < j < |files| ==> files[i] <= files[j])
  }

  /** Each poll opens the file as it then is, or fails to; `metadata` may report anything. */
  ghost predicate LooksAt<T>(looks: seq<Look<T>>, files: seq<seq<T>>) {
    && |looks| == |files|
    && forall i :: 0 <= i < |looks| ==> looks[i].bytes.Some? ==> looks[i].bytes.value == files[i]
  }

  function Latest<T>(seed: seq<T>, files: seq<seq<T>>): seq<T> {
    if files == [] then seed else files[|files| - 1]
  }

  /**
   * The cursor of a reader that has read exactly `read` behind `start`: complete
   * pieces, each of them once.
   */
  ghost predicate Follows<T, E>(cut: seq<T> -> nat, render: seq<T> -> seq<E>, cap: nat, shown: seq<E>, start: nat,
                                read: seq<T>, cursor: Cursor<E>) {
    && Chopped(cut, read) == |read|
    && cursor == CaughtUp(cut, render, cap, shown, start, read)
  }

  lemma ReadOn<T(!new), E>(cut: seq<T> -> nat, render: seq<T> -> seq<E>, cap: nat, shown: seq<E>, start: nat,
                           read: seq<T>, rest: seq<T>, cursor: Cursor<E>)
    requires Local(cut) && Follows(cut, render, cap, shown, start, read, cursor)
    ensures var more := rest[..Chopped(cut, rest)];
            Follows(cut, render, cap, shown, start, read + more,
                    Cursor(LastN(cursor.events + Read(cut, render, rest), cap), cursor.offset + |more|))
  {
    ReadFront(cut, render, rest);
    ReadConcat(cut, render, read, rest[..Chopped(cut, rest)]);
    LastNSplit(shown, Read(cut, render, read), Read(cut, render, rest), cap);
  }

  lemma SplitFile<T>(seed: seq<T>, read: seq<T>, file: seq<T>)
    requires seed + read <= file
    ensures var rest := From(file, |seed| + |read|);
            && file == seed + read + rest
            && forall n :: 0 <= n <= |rest| ==> seed + (read + rest[..n]) <= file
  {
  }

  /** A poll reads on behind what was read. */
  lemma PollFollows<T(!new), E>(cut: seq<T> -> nat, render: seq<T> -> seq<E>, cap: nat, shown: seq<E>, seed: seq<T>,
                                read: seq<T>, cursor: Cursor<E>, look: Look<T>, file: seq<T>)
    returns (read': seq<T>)
    requires Local(cut) && Follows(cut, render, cap, shown, |seed|, read, cursor) && seed + read <= file
    requires look.bytes.Some? ==> look.bytes.value == file
    ensures seed + read' <= file
    ensures Follows(cut, render, cap, shown, |seed|, read', Polled(cut, render, cap, cursor, look))
  {
    if look.bytes.Some? && look.length.Some? && look.length.value > cursor.offset {
      var rest := From(file, cursor.offset);
      ReadOn(cut, render, cap, shown, |seed|, read, rest, cursor);
      SplitFile(seed, read, file);
      return read + rest[..Chopped(cut, rest)];
    }
    return read;
  }

  /** Every schedule keeps the cursor behind complete pieces of the file, each read exactly once. */
  lemma {:induction false} RunFollows<T(!new), E>(cut: seq<T> -> nat, render: seq<T> -> seq<E>, cap: nat,
                                                  shown: seq<E>, seed: seq<T>, looks: seq<Look<T>>,
                                                  files: seq<seq<T>>)
    returns (read: seq<T>)
    requires Local(cut) && |shown| <= cap && AppendOnly(seed, files) && LooksAt(looks, files)
    ensures seed + read <= Latest(seed, files)
    ensures Follows(cut, render, cap, shown, |seed|, read,
                    Run(cut, render, cap, Cursor(shown, |seed|), looks))
  {
    if looks == [] {
      assert seed + [] == seed && shown + [] == shown;
      return [];
    }
    var n := |looks| - 1;
    var before := RunFollows(cut, render, cap, shown, seed, looks[..n], files[..n]);
    var cursor := Run(cut, render, cap, Cursor(shown, |seed|), looks[..n]);
    read := PollFollows(cut, render, cap, shown, seed, before, cursor, looks[n], files[n]);
  }

  /** A poll that sees the whole file leaves a cursor that depends on the file alone. */
  lemma PollCatchesUp<T(!new), E>(cut: seq<T> -> nat, render: seq<T> -> seq<E>, cap: nat, shown: seq<E>, start: nat,
                                  read: seq<T>, rest: seq<T>, cursor: Cursor<E>, look: Look<T>)
    requires Local(cut) && Follows(cut, render, cap, shown, start, read, cursor)
    requires look.length == Some(start + |read| + |rest|) && look.bytes.Some?
    requires From(look.bytes.value, start + |read|) == rest
    ensures Polled(cut, render, cap, cursor, look) == CaughtUp(cut, render, cap, shown, start, read + rest)
  {
    if rest == [] {
      assert read + rest == read;
    } else {
      ReadConcat(cut, render, read, rest);
      LastNSplit(shown, Read(cut, render, read), Read(cut, render, rest), cap);
    }
  }

  lemma SameGrowth<T>(seed: seq<T>, growth: seq<T>, read: seq<T>, rest: seq<T>)
    requires seed + growth == seed + read + rest
    ensures growth == read + rest
  {
    assert growth == (seed + growth)[|seed|..];
    assert read + rest == (seed + read + rest)[|seed|..];
  }

  lemma AppendOnlyFront<T>(seed: seq<T>, files: seq<seq<T>>, last: seq<T>)
    requires AppendOnly(seed, files + [last])
    ensures AppendOnly(seed, files) && Latest(seed, files) <= last
  {
    var all := files + [last];
    assert all[|files|] == last;
    assert forall i :: 0 <= i < |files| ==> all[i] == files[i];
  }

  /**
   * Schedule independence: whatever polls came before, one that sees the whole file
   * leaves the reader exactly as reading all of `growth` at once would.
   */
  lemma ScheduleIndependent<T(!new), E>(cut: seq<T> -> nat, render: seq<T> -> seq<E>, cap: nat, shown: seq<E>,
                                        seed: seq<T>, growth: seq<T>, looks: seq<Look<T>>, files: seq<seq<T>>,
                                        whole: Look<T>)
    requires Local(cut) && |shown| <= cap
    requires AppendOnly(seed, files + [seed + growth]) && LooksAt(looks, files)
    requires whole == Look(Some(|seed + growth|), Some(seed + growth))
    ensures Run(cut, render, cap, Cursor(shown, |seed|), looks + [whole])
         == CaughtUp(cut, render, cap, shown, |seed|, growth)
  {
    AppendOnlyFront(seed, files, seed + growth);
    var read := RunFollows(cut, render, cap, shown, seed, looks, files);
    var cursor := Run(cut, render, cap, Cursor(shown, |seed|), looks);
    SplitFile(seed, read, seed + growth);
    var rest := From(seed + growth, cursor.offset);
    SameGrowth(seed, growth, read, rest);
    PollCatchesUp(cut, render, cap, shown, |seed|, read, rest, cursor, whole);
    assert (looks + [whole])[..|looks|] == looks;
  }
}
