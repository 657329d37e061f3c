/** The canonical form of a JSON value, with object keys sorted (src/artifacts.rs). */
module CanonicalJson {
  import opened Seqs

  /** An object keeps the order of its members. */
  datatype Json = Null | Bool(b: bool) | Num(digits: string) | Str(text: string)
                | Arr(items: seq<Json>) | Obj(members: seq<Member>)
  datatype Member = Member(key: string, value: Json)

  predicate UniqueKeys(members: seq<Member>) {
    forall i, j :: 0 <= i < j < |members| ==> members[i].key != members[j].key
  }

  /** What the parser produces: no object names a key twice. */
  predicate WellFormed(j: Json) {
    match j
    case Arr(items) => forall i :: 0 <= i < |items| ==> WellFormed(items[i])
    case Obj(members) =>
      && UniqueKeys(members)
      && forall i :: 0 <= i < |members| ==> WellFormed(members[i].value)
    case _ => true
  }

  // ---- the order of strings ----

  predicate KeyLess(a: string, b: string) {
    b != "" && (a == "" || a[0] < b[0] || (a[0] == b[0] && KeyLess(a[1..], b[1..])))
  }

  lemma {:induction false} KeyTotal(a: string, b: string)
    ensures KeyLess(a, b) || a == b || KeyLess(b, a)
    ensures KeyLess(a, b) ==> a != b && !KeyLess(b, a)
  {
    if a != "" && b != "" {
      KeyTotal(a[1..], b[1..]);
      if a[0] == b[0] && a[1..] == b[1..] {
        assert a == [a[0]] + a[1..] && b == [b[0]] + b[1..];
      }
    }
  }

  lemma {:induction false} KeyTransitive(a: string, b: string, c: string)
    requires KeyLess(a, b) && KeyLess(b, c)
    ensures KeyLess(a, c)
  {
    if a != "" && a[0] == b[0] && b[0] == c[0] {
      KeyTransitive(a[1..], b[1..], c[1..]);
    }
  }

  // ---- collecting into a sorted map ----

  /** Inserting into a `BTreeMap`, its entries in key order; a key that is there gets the new value. */
  function Insert(m: Member, sorted: seq<Member>): seq<Member> {
    if sorted == [] || KeyLess(m.key, sorted[0].key) then [m] + sorted
    else if m.key == sorted[0].key then [m] + sorted[1..]
    else [sorted[0]] + Insert(m, sorted[1..])
  }

  function Collect(members: seq<Member>): seq<Member> {
    if members == [] then []
    else Insert(members[|members| - 1], Collect(members[..|members| - 1]))
  }

  ghost predicate Sorted(s: seq<Member>) {
    forall i, j :: 0 <= i < j < |s| ==> KeyLess(s[i].key, s[j].key)
  }

  ghost predicate Below(key: string, s: seq<Member>) {
    forall x :: x in s ==> KeyLess(key, x.key)
  }

  lemma SortedCons(m: Member, s: seq<Member>)
    ensures Sorted([m] + s) <==> Below(m.key, s) && Sorted(s)
  {
    var ms := [m] + s;
    if Below(m.key, s) && Sorted(s) {
      forall i, j | 0 <= i < j < |ms|
        ensures KeyLess(ms[i].key, ms[j].key)
      {
        assert ms[j] == s[j - 1] && ms[j] in s;
      }
    }
    if Sorted(ms) {
      assert forall i :: 0 <= i < |s| ==> s[i] == ms[i + 1];
      forall x | x in s
        ensures KeyLess(m.key, x.key)
      {
        var i :| 0 <= i < |s| && s[i] == x;
        assert KeyLess(ms[0].key, ms[i + 1].key);
      }
    }
  }

  lemma Uncons(s: seq<Member>)
    requires s != []
    ensures s == [s[0]] + s[1..] && forall x :: x in s <==> x == s[0] || x in s[1..]
  {
  }

  lemma BelowLess(a: string, b: string, s: seq<Member>)
    requires KeyLess(a, b) && Below(b, s)
    ensures Below(a, s)
  {
    forall x | x in s
      ensures KeyLess(a, x.key)
    {
      KeyTransitive(a, b, x.key);
    }
  }

  lemma {:induction false} InsertSorted(m: Member, s: seq<Member>)
    requires Sorted(s)
    ensures Sorted(Insert(m, s))
    ensures forall x :: x in Insert(m, s) <==> x == m || (x in s && x.key != m.key)
  {
    if s == [] {
    } else {
      var head, tail := s[0], s[1..];
      Uncons(s);
      SortedCons(head, tail);
      KeyTotal(m.key, head.key);
      if KeyLess(m.key, head.key) {
        BelowLess(m.key, head.key, tail);
        SortedCons(m, s);
        NotBelowItself(m.key, s);
      } else if m.key == head.key {
        SortedCons(m, tail);
        NotBelowItself(m.key, tail);
      } else {
        InsertSorted(m, tail);
        SortedCons(head, Insert(m, tail));
      }
    }
  }

  lemma NotBelowItself(key: string, s: seq<Member>)
    requires Below(key, s)
    ensures forall x :: x in s ==> x.key != key
  {
    forall x | x in s
      ensures x.key != key
    {
      KeyTotal(key, x.key);
    }
  }

  lemma {:induction false} CollectSorted(members: seq<Member>)
    ensures Sorted(Collect(members))
    ensures forall x :: x in Collect(members) ==> x in members
    ensures UniqueKeys(members) ==> forall x :: x in members ==> x in Collect(members)
  {
    if members != [] {
      var n := |members| - 1;
      DropLast(members);
      CollectSorted(members[..n]);
      InsertSorted(members[n], Collect(members[..n]));
    }
  }

  lemma FirstIn(s: seq<Member>)
    ensures s == [] || s[0] in s
  {
  }

  /** A strictly sorted sequence is determined by its members. */
  lemma {:induction false} SortedUnique(a: seq<Member>, b: seq<Member>)
    requires Sorted(a) && Sorted(b) && forall x :: x in a <==> x in b
    ensures a == b
  {
    FirstIn(a);
    FirstIn(b);
    if a != [] && b != [] {
      Uncons(a);
      Uncons(b);
      SortedCons(a[0], a[1..]);
      SortedCons(b[0], b[1..]);
      KeyTotal(a[0].key, b[0].key);
      assert a[0] in b && b[0] in a;
      NotBelowItself(a[0].key, a[1..]);
      NotBelowItself(b[0].key, b[1..]);
      SortedUnique(a[1..], b[1..]);
    }
  }

  // ---- canonical form ----

  function Canonical(j: Json): Json {
    match j
    case Arr(items) => Arr(seq(|items|, i requires 0 <= i < |items| => Canonical(items[i])))
    case Obj(members) => Obj(Collect(CanonicalMembers(members)))
    case _ => j
  }

  function CanonicalMembers(members: seq<Member>): (r: seq<Member>)
    ensures |r| == |members|
    ensures forall i :: 0 <= i < |r| ==> r[i] == Member(members[i].key, Canonical(members[i].value))
  {
    seq(|members|, i requires 0 <= i < |members| => Member(members[i].key, Canonical(members[i].value)))
  }

  /** `a` and `b` differ only in the order of object members, at any depth. */
  ghost predicate Reordered(a: Json, b: Json) {
    match (a, b)
    case (Arr(xs), Arr(ys)) => |xs| == |ys| && forall i :: 0 <= i < |xs| ==> Reordered(xs[i], ys[i])
    case (Obj(ms), Obj(ns)) =>
      |ms| == |ns| && forall i :: 0 <= i < |ms| ==> Occurs(ms[i], ns)
    case _ => a == b
  }

  ghost predicate Occurs(m: Member, ns: seq<Member>) {
    exists k :: 0 <= k < |ns| && m.key == ns[k].key && Reordered(m.value, ns[k].value)
  }

  // ---- idempotence ----

  lemma SortedUniqueKeys(s: seq<Member>)
    requires Sorted(s)
    ensures UniqueKeys(s)
  {
    forall i, j | 0 <= i < j < |s|
      ensures s[i].key != s[j].key
    {
      KeyTotal(s[i].key, s[j].key);
    }
  }

  lemma CollectAgain(s: seq<Member>)
    requires Sorted(s)
    ensures Collect(s) == s
  {
    CollectSorted(s);
    SortedUniqueKeys(s);
    SortedUnique(Collect(s), s);
  }

  lemma {:induction false} CanonicalTwice(j: Json)
    ensures Canonical(Canonical(j)) == Canonical(j)
  {
    match j
    case Arr(items) =>
      forall i | 0 <= i < |items|
        ensures Canonical(Canonical(items[i])) == Canonical(items[i])
      {
        CanonicalTwice(items[i]);
      }
      assert Canonical(Canonical(j)).items == Canonical(j).items;
    case Obj(members) =>
      var c := CanonicalMembers(members);
      var s := Collect(c);
      CollectSorted(c);
      forall i | 0 <= i < |s|
        ensures Canonical(s[i].value) == s[i].value
      {
        assert s[i] in s;
        var k :| 0 <= k < |c| && c[k] == s[i];
        CanonicalTwice(members[k].value);
      }
      assert CanonicalMembers(s) == s;
      CollectAgain(s);
    case _ =>
  }

  // ---- equality of canonical forms ----

  lemma {:induction false} InsertFresh(m: Member, s: seq<Member>)
    requires forall x :: x in s ==> x.key != m.key
    ensures |Insert(m, s)| == |s| + 1
  {
    if s != [] {
      Uncons(s);
      if !KeyLess(m.key, s[0].key) {
        InsertFresh(m, s[1..]);
      }
    }
  }

  lemma {:induction false} CollectLength(members: seq<Member>)
    requires UniqueKeys(members)
    ensures |Collect(members)| == |members|
  {
    if members != [] {
      var n := |members| - 1;
      CollectLength(members[..n]);
      CollectSorted(members[..n]);
      InsertFresh(members[n], Collect(members[..n]));
    }
  }

  function Elements(s: seq<Member>): set<Member> {
    set x | x in s
  }

  lemma {:induction false} ElementsCount(s: seq<Member>)
    requires UniqueKeys(s)
    ensures |Elements(s)| == |s|
  {
    if s != [] {
      var n := |s| - 1;
      ElementsCount(s[..n]);
      assert Elements(s) == Elements(s[..n]) + {s[n]};
    }
  }

  lemma SubsetOfSameSize<T>(a: set<T>, b: set<T>)
    requires a <= b && |a| == |b|
    ensures a == b
  {
    assert |b - a| == |b| - |a|;
  }

  /** Two collections with distinct keys give the same map exactly when they hold the same members. */
  lemma CollectEqual(c: seq<Member>, d: seq<Member>)
    requires UniqueKeys(c) && UniqueKeys(d)
    ensures Collect(c) == Collect(d) <==> |c| == |d| && forall x :: x in c ==> x in d
  {
    CollectSorted(c);
    CollectSorted(d);
    CollectLength(c);
    CollectLength(d);
    if |c| == |d| && forall x :: x in c ==> x in d {
      ElementsCount(c);
      ElementsCount(d);
      SubsetOfSameSize(Elements(c), Elements(d));
      assert forall x :: x in d ==> x in Elements(d);
      SortedUnique(Collect(c), Collect(d));
    }
  }

  /** Canonical forms agree exactly when the values differ only in the order of object members. */
  lemma {:induction false} CanonicalEqual(a: Json, b: Json)
    requires WellFormed(a) && WellFormed(b)
    ensures Canonical(a) == Canonical(b) <==> Reordered(a, b)
    decreases a
  {
    match (a, b)
    case (Arr(xs), Arr(ys)) =>
      var cs, ds := Canonical(a).items, Canonical(b).items;
      assert |cs| == |xs| && |ds| == |ys|;
      if |xs| == |ys| {
        forall i | 0 <= i < |xs|
          ensures cs[i] == ds[i] <==> Reordered(xs[i], ys[i])
        {
          CanonicalEqual(xs[i], ys[i]);
        }
        assert cs == ds <==> forall i :: 0 <= i < |xs| ==> cs[i] == ds[i];
      }
    case (Obj(ms), Obj(ns)) =>
      forall i, k | 0 <= i < |ms| && 0 <= k < |ns|
        ensures Canonical(ms[i].value) == Canonical(ns[k].value) <==> Reordered(ms[i].value, ns[k].value)
      {
        CanonicalEqual(ms[i].value, ns[k].value);
      }
      ObjectsEqual(ms, ns);
    case _ =>
  }

  /** The case of two objects, given the claim for their members' values. */
  lemma ObjectsEqual(ms: seq<Member>, ns: seq<Member>)
    requires UniqueKeys(ms) && UniqueKeys(ns)
    requires forall i, k :: 0 <= i < |ms| && 0 <= k < |ns| ==>
               (Canonical(ms[i].value) == Canonical(ns[k].value) <==> Reordered(ms[i].value, ns[k].value))
    ensures Canonical(Obj(ms)) == Canonical(Obj(ns)) <==> Reordered(Obj(ms), Obj(ns))
  {
    CollectEqual(CanonicalMembers(ms), CanonicalMembers(ns));
    MembersMatch(ms, ns);
    forall i | 0 <= i < |ms|
      ensures Matched(ms[i], ns) <==> Occurs(ms[i], ns)
    {
      MatchedOccurs(ms[i], ns);
    }
  }

  lemma MatchedOccurs(m: Member, ns: seq<Member>)
    requires forall k :: 0 <= k < |ns| ==>
               (Canonical(m.value) == Canonical(ns[k].value) <==> Reordered(m.value, ns[k].value))
    ensures Matched(m, ns) <==> Occurs(m, ns)
  {
  }

  ghost predicate Matched(m: Member, ns: seq<Member>) {
    exists k :: 0 <= k < |ns| && m.key == ns[k].key && Canonical(m.value) == Canonical(ns[k].value)
  }

  lemma MemberMatch(m: Member, ns: seq<Member>)
    ensures Member(m.key, Canonical(m.value)) in CanonicalMembers(ns) <==> Matched(m, ns)
  {
    var x, d := Member(m.key, Canonical(m.value)), CanonicalMembers(ns);
    if x in d {
      var k :| 0 <= k < |d| && d[k] == x;
      assert m.key == ns[k].key;
    }
    if Matched(m, ns) {
      var k :| 0 <= k < |ns| && m.key == ns[k].key && Canonical(m.value) == Canonical(ns[k].value);
      assert d[k] == x;
    }
  }

  lemma MembersMatch(ms: seq<Member>, ns: seq<Member>)
    ensures (forall x :: x in CanonicalMembers(ms) ==> x in CanonicalMembers(ns))
            <==> forall i :: 0 <= i < |ms| ==> Matched(ms[i], ns)
  {
    forall i | 0 <= i < |ms|
      ensures CanonicalMembers(ms)[i] in CanonicalMembers(ns) <==> Matched(ms[i], ns)
    {
      MemberMatch(ms[i], ns);
    }
    AllIn(CanonicalMembers(ms), CanonicalMembers(ns));
  }

  lemma AllIn<T>(c: seq<T>, d: seq<T>)
    ensures (forall x :: x in c ==> x in d) <==> forall i :: 0 <= i < |c| ==> c[i] in d
  {
    if forall x :: x in c ==> x in d {
      forall i | 0 <= i < |c|
        ensures c[i] in d
      {
        assert c[i] in c;
      }
    }
  }
}
