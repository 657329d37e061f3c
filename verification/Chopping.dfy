/**
 * Cutting pieces off the front of a sequence for as long as a rule finds one.
 * `cut` gives the length of the first piece, 0 for none.
 */
module Chopping {
  import opened Seqs

  function Chop<T>(cut: seq<T> -> nat, s: seq<T>): seq<seq<T>>
    decreases |s|
  {
    var n := cut(s);
    if 0 < n <= |s| then [s[..n]] + Chop(cut, s[n..]) else []
  }

  /** How much of the front the pieces take up. */
  function Chopped<T>(cut: seq<T> -> nat, s: seq<T>): (n: nat)
    ensures n <= |s|
    decreases |s|
  {
    var n := cut(s);
    if 0 < n <= |s| then n + Chopped(cut, s[n..]) else 0
  }

  /** The first piece is found by looking at it alone. */
  ghost predicate Local<T(!new)>(cut: seq<T> -> nat) {
    forall s, t :: 0 < cut(s) <= |s| ==> cut(s[..cut(s)] + t) == cut(s)
  }

  lemma LocalPrefix<T(!new)>(cut: seq<T> -> nat, s: seq<T>, t: seq<T>)
    requires Local(cut) && 0 < cut(s) <= |s|
    ensures cut(s + t) == cut(s) && cut(s[..cut(s)]) == cut(s)
  {
    var n := cut(s);
    assert s[..n] + (s[n..] + t) == s + t;
    assert s[..n] + [] == s[..n];
  }

  lemma ChopCons<T(!new)>(cut: seq<T> -> nat, piece: seq<T>, rest: seq<T>)
    requires Local(cut) && 0 < cut(piece) == |piece|
    ensures Chop(cut, piece + rest) == [piece] + Chop(cut, rest)
    ensures Chopped(cut, piece + rest) == |piece| + Chopped(cut, rest)
  {
    var all := piece + rest;
    assert piece[..|piece|] == piece;
    assert all[..|piece|] == piece && all[|piece|..] == rest;
  }

  lemma ChopConcatStep<T(!new)>(cut: seq<T> -> nat, piece: seq<T>, rest: seq<T>, s: seq<T>, t: seq<T>)
    requires Local(cut) && 0 < cut(piece) == |piece| && s == piece + rest
    requires Chop(cut, rest + t) == Chop(cut, rest) + Chop(cut, t)
    requires Chopped(cut, rest + t) == |rest| + Chopped(cut, t)
    ensures Chop(cut, s + t) == Chop(cut, s) + Chop(cut, t)
    ensures Chopped(cut, s + t) == |s| + Chopped(cut, t)
  {
    Associate(piece, rest, t);
    ChopCons(cut, piece, rest);
    ChopCons(cut, piece, rest + t);
    Associate([piece], Chop(cut, rest), Chop(cut, t));
  }

  /** Behind pieces cut off completely, cutting starts afresh. */
  lemma {:induction false} ChopConcat<T(!new)>(cut: seq<T> -> nat, s: seq<T>, t: seq<T>)
    requires Local(cut) && Chopped(cut, s) == |s|
    ensures Chop(cut, s + t) == Chop(cut, s) + Chop(cut, t)
    ensures Chopped(cut, s + t) == |s| + Chopped(cut, t)
    decreases |s|
  {
    if s == [] {
      assert s + t == t;
    } else {
      var n := cut(s);
      LocalPrefix(cut, s, []);
      ChopConcat(cut, s[n..], t);
      ChopConcatStep(cut, s[..n], s[n..], s, t);
    }
  }

  /** The pieces taken off are those of the front they take up, and behind it there is none. */
  lemma {:induction false} ChopFront<T(!new)>(cut: seq<T> -> nat, s: seq<T>)
    requires Local(cut)
    ensures var n := Chopped(cut, s);
            && Chopped(cut, s[..n]) == n && Chop(cut, s[..n]) == Chop(cut, s)
            && !(0 < cut(s[n..]) <= |s| - n)
    decreases |s|
  {
    var n := Chopped(cut, s);
    if 0 < cut(s) <= |s| {
      var piece, rest := s[..cut(s)], s[cut(s)..];
      LocalPrefix(cut, s, []);
      ChopFront(cut, rest);
      assert s[..n] == piece + rest[..n - |piece|];
      ChopCons(cut, piece, rest[..n - |piece|]);
      assert rest[n - |piece|..] == s[n..];
    } else {
      assert s[0..] == s;
    }
  }

  lemma ChopOne<T>(cut: seq<T> -> nat, piece: seq<T>)
    requires 0 < cut(piece) == |piece|
    ensures Chop(cut, piece) == [piece]
  {
    assert piece[..|piece|] == piece;
  }

  /** Something that completes the unfinished piece at the end. */
  lemma ChopCompleted<T(!new)>(cut: seq<T> -> nat, s: seq<T>, end: seq<T>)
    requires Local(cut)
    requires var piece := s[Chopped(cut, s)..] + end; 0 < cut(piece) == |piece|
    ensures Chop(cut, s + end) == Chop(cut, s) + [s[Chopped(cut, s)..] + end]
  {
    ChopFront(cut, s);
    var front, piece := s[..Chopped(cut, s)], s[Chopped(cut, s)..] + end;
    assert s + end == front + piece;
    ChopConcat(cut, front, piece);
    ChopOne(cut, piece);
  }

  /** When `end` completes an unfinished piece, cutting the two parts apart gives other pieces. */
  lemma ChopUnfinished<T(!new)>(cut: seq<T> -> nat, s: seq<T>, end: seq<T>)
    requires Local(cut) && Chopped(cut, s) < |s| && 0 < cut(end) == |end|
    requires var piece := s[Chopped(cut, s)..] + end; cut(piece) == |piece|
    ensures Chop(cut, s + end) != Chop(cut, s) + Chop(cut, end)
  {
    ChopCompleted(cut, s, end);
    ChopOne(cut, end);
    DifferentLast(Chop(cut, s), s[Chopped(cut, s)..] + end, end);
  }

  lemma DifferentLast<T>(front: seq<T>, a: T, b: T)
    requires a != b
    ensures front + [a] != front + [b]
  {
    assert (front + [a])[|front|] == a;
  }

  /** If every piece ends with `end`, so does what is cut off. */
  lemma {:induction false} ChoppedEnds<T(!new)>(cut: seq<T> -> nat, end: T, s: seq<T>)
    requires forall piece :: 0 < cut(piece) <= |piece| ==> piece[cut(piece) - 1] == end
    ensures Chopped(cut, s) > 0 ==> s[Chopped(cut, s) - 1] == end
    decreases |s|
  {
    var n := cut(s);
    if 0 < n <= |s| {
      ChoppedEnds(cut, end, s[n..]);
    }
  }

  /** A concatenation of pieces is cut into just these. */
  lemma {:induction false} ChopPieces<T(!new), U>(cut: seq<T> -> nat, f: U -> seq<T>, items: seq<U>)
    requires Local(cut) && forall x :: x in items ==> 0 < cut(f(x)) == |f(x)|
    ensures Chop(cut, FlatMap(f, items)) == MapSeq(f, items)
    ensures Chopped(cut, FlatMap(f, items)) == |FlatMap(f, items)|
  {
    if items != [] {
      var n := |items| - 1;
      var piece := f(items[n]);
      DropLast(items);
      ChopPieces(cut, f, items[..n]);
      ChopConcat(cut, FlatMap(f, items[..n]), piece);
      ChopCons(cut, piece, []);
      assert piece + [] == piece;
    }
  }

  lemma {:induction false} ChopMembers<T(!new)>(cut: seq<T> -> nat, s: seq<T>)
    requires Local(cut)
    ensures forall piece :: piece in Chop(cut, s) ==> 0 < cut(piece) == |piece|
    decreases |s|
  {
    var n := cut(s);
    if 0 < n <= |s| {
      LocalPrefix(cut, s, []);
      ChopMembers(cut, s[n..]);
      forall piece | piece in Chop(cut, s)
        ensures 0 < cut(piece) == |piece|
      {
        assert piece == s[..n] || piece in Chop(cut, s[n..]);
      }
    }
  }
}
