/** UTF-8 as section 4 of RFC 3629 defines it, and where a text may be cut. */
module Utf8 {
  import opened Bytes

  predicate IsContinuation(b: byte) {
    0x80 <= b < 0xC0
  }

  /** The length of the character `s` starts with; 0 when it starts with none. */
  function CharLength(s: seq<byte>): (n: nat)
    ensures n <= |s| && n <= 4
    ensures n > 0 ==> !IsContinuation(s[0]) && forall i :: 0 < i < n ==> IsContinuation(s[i])
  {
    if s == [] then 0
    else if s[0] < 0x80 then 1
    else if 0xC2 <= s[0] <= 0xDF then
      if |s| >= 2 && IsContinuation(s[1]) then 2 else 0
    else if 0xE0 <= s[0] <= 0xEF then
      if |s| >= 3 && IsContinuation(s[1]) && IsContinuation(s[2])
         && (s[0] == 0xE0 ==> s[1] >= 0xA0) && (s[0] == 0xED ==> s[1] < 0xA0)
      then 3 else 0
    else if 0xF0 <= s[0] <= 0xF4 then
      if |s| >= 4 && IsContinuation(s[1]) && IsContinuation(s[2]) && IsContinuation(s[3])
         && (s[0] == 0xF0 ==> s[1] >= 0x90) && (s[0] == 0xF4 ==> s[1] < 0x90)
      then 4 else 0
    else 0
  }

  predicate Valid(s: seq<byte>)
    decreases |s|
  {
    s == [] || (CharLength(s) > 0 && Valid(s[CharLength(s)..]))
  }

  /** `str::is_char_boundary` */
  predicate IsBoundary(s: seq<byte>, i: nat) {
    i == 0 || i == |s| || (i < |s| && !IsContinuation(s[i]))
  }

  lemma CharLengthPrefix(s: seq<byte>, t: seq<byte>)
    requires CharLength(s) > 0
    ensures CharLength(s + t) == CharLength(s)
  {
    assert forall i :: 0 <= i < |s| ==> (s + t)[i] == s[i];
  }

  lemma CharLengthTake(s: seq<byte>, i: nat)
    requires CharLength(s) > 0 && CharLength(s) <= i <= |s|
    ensures CharLength(s[..i]) == CharLength(s)
  {
  }

  lemma {:induction false} ValidConcat(s: seq<byte>, t: seq<byte>)
    requires Valid(s) && Valid(t)
    ensures Valid(s + t)
    decreases |s|
  {
    if s == [] {
      assert s + t == t;
    } else {
      var n := CharLength(s);
      var all := s + t;
      CharLengthPrefix(s, t);
      assert all[n..] == s[n..] + t;
      ValidConcat(s[n..], t);
      assert all != [] && CharLength(all) == n;
    }
  }

  /** A boundary inside a valid text lies behind its first character. */
  lemma BoundaryBehindFirst(s: seq<byte>, i: nat)
    requires CharLength(s) > 0 && 0 < i <= |s| && IsBoundary(s, i)
    ensures CharLength(s) <= i && IsBoundary(s[CharLength(s)..], i - CharLength(s))
  {
    var n := CharLength(s);
    assert n <= i < |s| ==> s[n..][i - n] == s[i];
  }

  /** Cutting a valid text at a boundary leaves two valid texts. */
  lemma {:induction false} ValidCut(s: seq<byte>, i: nat)
    requires Valid(s) && i <= |s| && IsBoundary(s, i)
    ensures Valid(s[..i]) && Valid(s[i..])
    decreases |s|
  {
    if i == 0 {
      assert s[0..] == s;
    } else {
      var n := CharLength(s);
      BoundaryBehindFirst(s, i);
      ValidCut(s[n..], i - n);
      CharLengthTake(s, i);
      assert s[..i][n..] == s[n..][..i - n];
      assert s[i..] == s[n..][i - n..];
    }
  }

  lemma ShiftBoundary(s: seq<byte>, n: nat, i: nat)
    requires 0 < n <= |s| && n + i <= |s|
    requires n == |s| || !IsContinuation(s[n])
    requires IsBoundary(s[n..], i)
    ensures IsBoundary(s, n + i)
  {
    assert n + i < |s| ==> s[n..][i] == s[n + i];
  }

  lemma ValidStart(s: seq<byte>)
    requires Valid(s) && s != []
    ensures !IsContinuation(s[0])
  {
  }

  /** No index of a valid text is more than three bytes away from a boundary, on either side. */
  lemma {:induction false} BoundaryNear(s: seq<byte>, i: nat) returns (below: nat, above: nat)
    requires Valid(s) && i <= |s|
    ensures below <= i <= above <= |s| && IsBoundary(s, below) && IsBoundary(s, above)
    ensures i - below <= 3 && above - i <= 3
    decreases |s|
  {
    if s == [] || i == 0 {
      return 0, 0;
    }
    var n := CharLength(s);
    var rest := s[n..];
    if rest != [] {
      ValidStart(rest);
      assert s[n] == rest[0];
    }
    if i < n {
      return 0, n;
    }
    var b, a := BoundaryNear(rest, i - n);
    ShiftBoundary(s, n, b);
    ShiftBoundary(s, n, a);
    return n + b, n + a;
  }

  lemma {:induction false} AsciiValid(s: seq<byte>)
    requires forall i :: 0 <= i < |s| ==> s[i] < 0x80
    ensures Valid(s)
  {
    if s != [] {
      AsciiValid(s[1..]);
    }
  }
}
