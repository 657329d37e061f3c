/** Mapping, filtering and repeating sequences. */
module Seqs {
  function MapSeq<T, U>(f: T -> U, s: seq<T>): (r: seq<U>)
    ensures |r| == |s|
    ensures forall i :: 0 <= i < |s| ==> r[i] == f(s[i])
  {
    seq(|s|, i requires 0 <= i < |s| => f(s[i]))
  }

  function Filter<T>(p: T -> bool, s: seq<T>): (r: seq<T>)
    ensures forall i :: 0 <= i < |r| ==> p(r[i]) && r[i] in s
    ensures |r| <= |s|
  {
    if s == [] then []
    else
      var kept := Filter(p, s[..|s| - 1]);
      if p(s[|s| - 1]) then kept + [s[|s| - 1]] else kept
  }

  function FlatMap<T, U>(f: T -> seq<U>, s: seq<T>): seq<U> {
    if s == [] then [] else FlatMap(f, s[..|s| - 1]) + f(s[|s| - 1])
  }

  function Members<T>(s: seq<T>): set<T> {
    set x | x in s
  }

  function Repeat<T>(s: seq<T>, n: nat): (r: seq<T>)
    ensures |r| == n * |s|
    ensures forall i :: 0 <= i < |r| ==> r[i] in s
  {
    if n == 0 then [] else Repeat(s, n - 1) + s
  }

  lemma Associate<T>(a: seq<T>, b: seq<T>, c: seq<T>)
    ensures a + b + c == a + (b + c)
  {
  }

  lemma TakeAndDrop<T>(a: seq<T>, z: seq<T>, at: nat)
    requires at <= |a|
    ensures (a + z)[..at] == a[..at] && (a + z)[at..] == a[at..] + z
  {
  }

  lemma DropLast<T>(s: seq<T>)
    requires s != []
    ensures s == s[..|s| - 1] + [s[|s| - 1]]
  {
  }

  lemma {:induction false} FilterMembers<T>(p: T -> bool, s: seq<T>)
    ensures forall x :: x in Filter(p, s) <==> x in s && p(x)
  {
    if s != [] {
      DropLast(s);
      FilterMembers(p, s[..|s| - 1]);
    }
  }

  lemma {:induction false} FilterConcat<T>(p: T -> bool, a: seq<T>, b: seq<T>)
    ensures Filter(p, a + b) == Filter(p, a) + Filter(p, b)
    decreases |b|
  {
    if b == [] {
      assert a + b == a;
    } else {
      var ab := a + b;
      assert ab[..|ab| - 1] == a + b[..|b| - 1] && ab[|ab| - 1] == b[|b| - 1];
      FilterConcat(p, a, b[..|b| - 1]);
    }
  }

  lemma FilterLast<T>(p: T -> bool, s: seq<T>, x: T)
    ensures Filter(p, s + [x]) == if p(x) then Filter(p, s) + [x] else Filter(p, s)
  {
    assert (s + [x])[..|s|] == s;
  }

  lemma {:induction false} FilterAll<T>(p: T -> bool, s: seq<T>)
    ensures Filter(p, s) == s <==> forall x :: x in s ==> p(x)
    ensures |Filter(p, s)| == |s| ==> Filter(p, s) == s
  {
    FilterMembers(p, s);
    if s != [] {
      DropLast(s);
      FilterAll(p, s[..|s| - 1]);
      if Filter(p, s) == s {
        assert forall x :: x in s ==> p(x);
      }
    }
  }

  lemma {:induction false} FilterAgree<T>(p: T -> bool, q: T -> bool, s: seq<T>)
    requires forall x :: x in s ==> p(x) == q(x)
    ensures Filter(p, s) == Filter(q, s)
  {
    if s != [] {
      FilterAgree(p, q, s[..|s| - 1]);
    }
  }

  lemma {:induction false} FilterMap<T>(p: T -> bool, f: T -> T, s: seq<T>)
    requires forall x :: x in s ==> p(f(x)) == p(x)
    ensures Filter(p, MapSeq(f, s)) == MapSeq(f, Filter(p, s))
  {
    if s != [] {
      var n := |s| - 1;
      FilterMap(p, f, s[..n]);
      assert MapSeq(f, s)[..n] == MapSeq(f, s[..n]);
      assert MapSeq(f, Filter(p, s[..n]) + [s[n]]) == MapSeq(f, Filter(p, s[..n])) + [f(s[n])];
    }
  }

  lemma {:induction false} FilterRepeat<T>(p: T -> bool, s: seq<T>, n: nat)
    requires Filter(p, s) == s
    ensures Filter(p, Repeat(s, n)) == Repeat(s, n)
  {
    FilterAll(p, s);
    FilterAll(p, Repeat(s, n));
  }

  lemma {:induction false} FlatMapMap<T, U>(f: U -> seq<T>, g: T -> U, s: seq<T>)
    requires forall x :: x in s ==> f(g(x)) == [x]
    ensures FlatMap(f, MapSeq(g, s)) == s
  {
    if s != [] {
      var n := |s| - 1;
      DropLast(s);
      FlatMapMap(f, g, s[..n]);
      assert MapSeq(g, s)[..n] == MapSeq(g, s[..n]);
    }
  }

  lemma FlatMapOne<T, U>(f: T -> seq<U>, x: T)
    ensures FlatMap(f, [x]) == f(x)
  {
    assert [x][..0] == [];
    assert FlatMap(f, [x]) == [] + f(x);
  }

  lemma {:induction false} FlatMapMember<T, U>(f: T -> seq<U>, s: seq<T>, u: U) returns (x: T)
    requires u in FlatMap(f, s)
    ensures x in s && u in f(x)
  {
    if u in f(s[|s| - 1]) {
      x := s[|s| - 1];
    } else {
      x := FlatMapMember(f, s[..|s| - 1], u);
    }
  }

  lemma {:induction false} FlatMapHas<T, U>(f: T -> seq<U>, s: seq<T>, x: T, u: U)
    requires x in s && u in f(x)
    ensures u in FlatMap(f, s)
  {
    if x != s[|s| - 1] {
      FlatMapHas(f, s[..|s| - 1], x, u);
    }
  }

  lemma {:induction false} FlatMapConcat<T, U>(f: T -> seq<U>, a: seq<T>, b: seq<T>)
    ensures FlatMap(f, a + b) == FlatMap(f, a) + FlatMap(f, b)
    decreases |b|
  {
    if b == [] {
      assert a + b == a;
    } else {
      var ab := a + b;
      assert ab[..|ab| - 1] == a + b[..|b| - 1] && ab[|ab| - 1] == b[|b| - 1];
      FlatMapConcat(f, a, b[..|b| - 1]);
    }
  }
}
