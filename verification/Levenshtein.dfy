/**
 * The edit distance behind the "did you mean" suggestion for an unknown type
 * prefix (src/entity_ref.rs): the two-row loop, the recursive distance it
 * computes, and the edit scripts that distance is the least length of.
 */
module Levenshtein {
  import opened Wrappers
  import opened Bytes
  import opened Naturals
  import opened Seqs
  import opened EntityRefs
  import EntityRefLaws

  function Cost(x: byte, y: byte): nat {
    if x == y then 0 else 1
  }

  function Init(s: seq<byte>): seq<byte>
    requires s != []
  {
    s[..|s| - 1]
  }

  function Last(s: seq<byte>): byte
    requires s != []
  {
    s[|s| - 1]
  }

  function Dist(a: seq<byte>, b: seq<byte>): nat
    decreases |a| + |b|
  {
    if a == [] then |b|
    else if b == [] then |a|
    else
      Min(Dist(Init(a), Init(b)) + Cost(Last(a), Last(b)),
          Min(Dist(a, Init(b)) + 1, Dist(Init(a), b) + 1))
  }

  // ---- the distance is a metric ----

  lemma {:induction false} DistSymmetric(a: seq<byte>, b: seq<byte>)
    ensures Dist(a, b) == Dist(b, a)
    decreases |a| + |b|
  {
    if a != [] && b != [] {
      DistSymmetric(Init(a), Init(b));
      DistSymmetric(a, Init(b));
      DistSymmetric(Init(a), b);
    }
  }

  lemma {:induction false} DistZero(a: seq<byte>, b: seq<byte>)
    ensures Dist(a, b) == 0 <==> a == b
    decreases |a| + |b|
  {
    if a != [] && b != [] {
      DistZero(Init(a), Init(b));
      assert a == Init(a) + [Last(a)] && b == Init(b) + [Last(b)];
    }
  }

  /** The distance is at least the difference in length and at most the longer length. */
  lemma {:induction false} DistBounds(a: seq<byte>, b: seq<byte>)
    ensures |a| <= |b| + Dist(a, b)
    ensures |b| <= |a| + Dist(a, b)
    ensures Dist(a, b) <= |a| || Dist(a, b) <= |b|
    decreases |a| + |b|
  {
    if a != [] && b != [] {
      DistBounds(Init(a), Init(b));
      DistBounds(a, Init(b));
      DistBounds(Init(a), b);
    }
  }

  lemma {:induction false} DistTriangle(a: seq<byte>, b: seq<byte>, c: seq<byte>)
    ensures Dist(a, c) <= Dist(a, b) + Dist(b, c)
    decreases |a| + |b| + |c|
  {
    if a == [] || b == [] || c == [] {
      DistBounds(a, c);
      DistBounds(a, b);
      DistBounds(b, c);
    } else if Dist(a, b) == Dist(Init(a), b) + 1 {
      DistTriangle(Init(a), b, c);
    } else if Dist(b, c) == Dist(b, Init(c)) + 1 {
      DistTriangle(a, b, Init(c));
    } else if Dist(a, b) == Dist(a, Init(b)) + 1 {
      // the last byte of b was inserted on the way from a
      if Dist(b, c) == Dist(Init(b), c) + 1 {
        DistTriangle(a, Init(b), c);
      } else {
        DistTriangle(a, Init(b), Init(c));
      }
    } else {
      // the last byte of b was matched with the last byte of a
      if Dist(b, c) == Dist(Init(b), c) + 1 {
        DistTriangle(Init(a), Init(b), c);
      } else {
        DistTriangle(Init(a), Init(b), Init(c));
      }
    }
  }

  // ---- edit scripts ----

  datatype Edit =
    | Insert(at: nat, what: byte)
    | Delete(at: nat)
    | Substitute(at: nat, what: byte)

  predicate Applies(e: Edit, s: seq<byte>) {
    if e.Insert? then e.at <= |s| else e.at < |s|
  }

  function Apply(e: Edit, s: seq<byte>): seq<byte>
    requires Applies(e, s)
  {
    match e
    case Insert(at, what) => s[..at] + [what] + s[at..]
    case Delete(at) => s[..at] + s[at + 1..]
    case Substitute(at, what) => s[at := what]
  }

  /** Running a script; `None` when an edit falls outside the string. */
  function Run(script: seq<Edit>, s: seq<byte>): Option<seq<byte>> {
    if script == [] then Some(s)
    else
      match Run(script[..|script| - 1], s)
      case None => None
      case Some(t) => Step(script[|script| - 1], t)
  }

  function Step(e: Edit, s: seq<byte>): Option<seq<byte>> {
    if Applies(e, s) then Some(Apply(e, s)) else None
  }

  lemma {:induction false} DistCommonSuffix(a: seq<byte>, b: seq<byte>, z: seq<byte>)
    ensures Dist(a + z, b + z) <= Dist(a, b)
    decreases |z|
  {
    if z == [] {
      assert a + z == a && b + z == b;
    } else {
      var z' := Init(z);
      DistCommonSuffix(a, b, z');
      assert Init(a + z) == a + z' && Init(b + z) == b + z';
      assert Last(a + z) == Last(b + z);
    }
  }

  lemma DistAppendOne(u: seq<byte>, x: byte)
    ensures Dist(u, u + [x]) <= 1
  {
    DistZero(u, u);
    assert Init(u + [x]) == u;
  }

  lemma DistReplaceLast(u: seq<byte>, x: byte, y: byte)
    ensures Dist(u + [x], u + [y]) <= 1
  {
    DistZero(u, u);
    assert Init(u + [x]) == u && Init(u + [y]) == u;
  }

  lemma DistMiddleInsert(s: seq<byte>, t: seq<byte>, u: seq<byte>, x: byte, v: seq<byte>)
    requires s == u + v && t == u + [x] + v
    ensures Dist(s, t) <= 1 && Dist(t, s) <= 1
  {
    DistAppendOne(u, x);
    DistCommonSuffix(u, u + [x], v);
    DistSymmetric(s, t);
  }

  lemma DistMiddleReplace(s: seq<byte>, t: seq<byte>, u: seq<byte>, x: byte, y: byte, v: seq<byte>)
    requires s == u + [x] + v && t == u + [y] + v
    ensures Dist(s, t) <= 1
  {
    DistReplaceLast(u, x, y);
    DistCommonSuffix(u + [x], u + [y], v);
  }

  lemma SplitAt(s: seq<byte>, at: nat)
    requires at < |s|
    ensures s == s[..at] + [s[at]] + s[at + 1..]
  {
  }

  lemma ReplaceAt(s: seq<byte>, at: nat, x: byte)
    requires at < |s|
    ensures s[at := x] == s[..at] + [x] + s[at + 1..]
  {
  }

  /** One edit moves the string by at most one. */
  lemma DistOneEdit(e: Edit, s: seq<byte>, t: seq<byte>)
    requires Applies(e, s) && t == Apply(e, s)
    ensures Dist(s, t) <= 1
  {
    match e
    case Insert(at, what) =>
      DistMiddleInsert(s, t, s[..at], what, s[at..]);
    case Delete(at) =>
      SplitAt(s, at);
      DistMiddleInsert(t, s, s[..at], s[at], s[at + 1..]);
    case Substitute(at, what) =>
      SplitAt(s, at);
      ReplaceAt(s, at, what);
      DistMiddleReplace(s, t, s[..at], s[at], what, s[at + 1..]);
  }

  /** No script is shorter than the distance. */
  lemma {:induction false} ScriptNoShorter(script: seq<Edit>, a: seq<byte>, b: seq<byte>)
    requires Run(script, a) == Some(b)
    ensures Dist(a, b) <= |script|
    decreases |script|
  {
    if script == [] {
      DistZero(a, b);
    } else {
      var n := |script| - 1;
      var mid := Run(script[..n], a).value;
      ScriptNoShorter(script[..n], a, mid);
      DistOneEdit(script[n], mid, b);
      DistTriangle(a, mid, b);
    }
  }

  lemma ReplaceWithSuffix(a: seq<byte>, z: seq<byte>, at: nat, x: byte)
    requires at < |a|
    ensures (a + z)[at := x] == a[at := x] + z
  {
  }

  lemma ApplyWithSuffix(e: Edit, a: seq<byte>, z: seq<byte>)
    requires Applies(e, a)
    ensures Step(e, a + z) == Some(Apply(e, a) + z)
  {
    match e
    case Insert(at, what) =>
      TakeAndDrop(a, z, at);
      Associate(a[..at] + [what], a[at..], z);
    case Delete(at) =>
      TakeAndDrop(a, z, at);
      TakeAndDrop(a, z, at + 1);
      Associate(a[..at], a[at + 1..], z);
    case Substitute(at, what) =>
      ReplaceWithSuffix(a, z, at, what);
  }

  lemma {:induction false} RunWithSuffix(script: seq<Edit>, a: seq<byte>, b: seq<byte>, z: seq<byte>)
    requires Run(script, a) == Some(b)
    ensures Run(script, a + z) == Some(b + z)
    decreases |script|
  {
    if script != [] {
      var n := |script| - 1;
      var mid := Run(script[..n], a).value;
      RunWithSuffix(script[..n], a, mid, z);
      ApplyWithSuffix(script[n], mid, z);
    }
  }

  /** The script that `Dist` counts, one edit at the end for each unit of cost. */
  function BestScript(a: seq<byte>, b: seq<byte>): seq<Edit>
    decreases |a| + |b|
  {
    if a == [] && b == [] then []
    else if b == [] || (a != [] && Dist(a, b) == Dist(Init(a), b) + 1) then
      BestScript(Init(a), b) + [Delete(|b|)]
    else if a == [] || Dist(a, b) == Dist(a, Init(b)) + 1 then
      BestScript(a, Init(b)) + [Insert(|b| - 1, Last(b))]
    else if Last(a) == Last(b) then BestScript(Init(a), Init(b))
    else BestScript(Init(a), Init(b)) + [Substitute(|b| - 1, Last(b))]
  }

  lemma RunAppend(script: seq<Edit>, e: Edit, a: seq<byte>, mid: seq<byte>)
    requires Run(script, a) == Some(mid)
    ensures Run(script + [e], a) == Step(e, mid)
  {
    var all := script + [e];
    assert all[..|all| - 1] == script;
  }

  lemma InitLast(s: seq<byte>)
    requires s != []
    ensures s == Init(s) + [Last(s)]
  {
  }

  lemma LastEdits(t: seq<byte>, b: seq<byte>, x: byte)
    ensures Step(Delete(|t|), t + [x]) == Some(t)
    ensures b != [] ==> Step(Insert(|b| - 1, Last(b)), Init(b)) == Some(b)
    ensures b != [] ==> Step(Substitute(|b| - 1, Last(b)), Init(b) + [x]) == Some(b)
  {
    assert Apply(Delete(|t|), t + [x]) == t;
    if b != [] {
      assert Apply(Insert(|b| - 1, Last(b)), Init(b)) == b;
      assert Apply(Substitute(|b| - 1, Last(b)), Init(b) + [x]) == b;
    }
  }

  /** The distance is attained: this script does turn `a` into `b`. */
  lemma {:induction false} BestScriptWorks(a: seq<byte>, b: seq<byte>)
    ensures Run(BestScript(a, b), a) == Some(b)
    ensures |BestScript(a, b)| == Dist(a, b)
    decreases |a| + |b|
  {
    if a == [] && b == [] {
    } else if b == [] || (a != [] && Dist(a, b) == Dist(Init(a), b) + 1) {
      var script := BestScript(Init(a), b);
      BestScriptWorks(Init(a), b);
      InitLast(a);
      RunWithSuffix(script, Init(a), b, [Last(a)]);
      RunAppend(script, Delete(|b|), a, b + [Last(a)]);
      LastEdits(b, b, Last(a));
    } else if a == [] || Dist(a, b) == Dist(a, Init(b)) + 1 {
      var script := BestScript(a, Init(b));
      BestScriptWorks(a, Init(b));
      RunAppend(script, Insert(|b| - 1, Last(b)), a, Init(b));
      LastEdits(b, b, Last(b));
    } else {
      var script := BestScript(Init(a), Init(b));
      BestScriptWorks(Init(a), Init(b));
      InitLast(a);
      InitLast(b);
      RunWithSuffix(script, Init(a), Init(b), [Last(a)]);
      if Last(a) != Last(b) {
        RunAppend(script, Substitute(|b| - 1, Last(b)), a, Init(b) + [Last(a)]);
        LastEdits(b, b, Last(a));
      }
    }
  }

  // ---- the loop ----

  /** The entry of the distance table for the first `i` and the first `j` bytes. */
  function Entry(a: seq<byte>, b: seq<byte>, i: nat, j: nat): nat
    requires i <= |a| && j <= |b|
  {
    Dist(a[..i], b[..j])
  }

  lemma EntryBorder(a: seq<byte>, b: seq<byte>)
    ensures forall j :: 0 <= j <= |b| ==> Entry(a, b, 0, j) == j
    ensures forall i :: 0 <= i <= |a| ==> Entry(a, b, i, 0) == i
    ensures Entry(a, b, |a|, |b|) == Dist(a, b)
  {
    assert a[..|a|] == a && b[..|b|] == b;
  }

  lemma EntryStep(a: seq<byte>, b: seq<byte>, i: nat, j: nat)
    requires i < |a| && j < |b|
    ensures Entry(a, b, i + 1, j + 1)
         == Min(Min(Entry(a, b, i, j) + Cost(a[i], b[j]), Entry(a, b, i + 1, j) + 1),
                Entry(a, b, i, j + 1) + 1)
  {
    var x, y := a[..i + 1], b[..j + 1];
    assert Init(x) == a[..i];
    assert Init(y) == b[..j];
  }

  method Levenshtein(a: seq<byte>, b: seq<byte>) returns (distance: nat)
    ensures distance == Dist(a, b)
  {
    var previous := new nat[|b| + 1](j => j);
    var current := new nat[|b| + 1](j => 0);
    EntryBorder(a, b);
    var i := 0;
    while i < |a|
      invariant 0 <= i <= |a|
      invariant previous.Length == |b| + 1 && current.Length == |b| + 1
      invariant fresh(previous) && fresh(current) && previous != current
      invariant forall j :: 0 <= j <= |b| ==> previous[j] == Entry(a, b, i, j)
    {
      current[0] := i + 1;
      var j := 0;
      while j < |b|
        invariant 0 <= j <= |b|
        invariant forall k :: 0 <= k <= |b| ==> previous[k] == Entry(a, b, i, k)
        invariant forall k :: 0 <= k <= j ==> current[k] == Entry(a, b, i + 1, k)
      {
        var substitution := previous[j] + Cost(a[i], b[j]);
        var insertion := current[j] + 1;
        var deletion := previous[j + 1] + 1;
        EntryStep(a, b, i, j);
        current[j + 1] := Min(Min(substitution, insertion), deletion);
        j := j + 1;
      }
      previous, current := current, previous;
      i := i + 1;
    }
    distance := previous[|b|];
  }

  // ---- the suggestion ----

  function AsciiBytes(s: string): (r: seq<byte>)
    ensures |r| == |s|
    ensures forall i :: 0 <= i < |s| && s[i] < '\U{0080}' ==> r[i] as int == s[i] as int
  {
    seq(|s|, i requires 0 <= i < |s| => (s[i] as int % 256) as byte)
  }

  function DistanceTo(prefix: seq<byte>, k: nat): nat
    requires k < |ALL_TYPES|
  {
    Dist(prefix, AsciiBytes(TypeName(ALL_TYPES[k])))
  }

  /** `k` is the first type at the least distance, and that distance is at most 3. */
  ghost predicate FirstClosest(prefix: seq<byte>, k: nat) {
    && k < |ALL_TYPES|
    && DistanceTo(prefix, k) <= 3
    && (forall j: nat :: j < |ALL_TYPES| ==> DistanceTo(prefix, k) <= DistanceTo(prefix, j))
    && (forall j: nat :: j < k ==> DistanceTo(prefix, k) < DistanceTo(prefix, j))
  }

  /** Among the first `k` types, `at` is the first at distance `best`, the least; 4 stands for none within 3. */
  ghost predicate ClosestOf(prefix: seq<byte>, k: nat, best: nat, at: nat)
    requires k <= |ALL_TYPES|
  {
    && best <= 4
    && (best < 4 ==> at < k && DistanceTo(prefix, at) == best)
    && (forall j: nat :: j < k ==> best <= DistanceTo(prefix, j))
    && (best < 4 ==> forall j: nat :: j < at ==> best < DistanceTo(prefix, j))
  }

  lemma CloserOf(prefix: seq<byte>, k: nat, best: nat, at: nat)
    requires k < |ALL_TYPES| && ClosestOf(prefix, k, best, at)
    ensures var d := DistanceTo(prefix, k);
            ClosestOf(prefix, k + 1, if d < best then d else best, if d < best then k else at)
  {
  }

  /** `b` is the name of the type in bytes. */
  ghost predicate Spells(b: seq<byte>, t: EntityType) {
    |b| == |TypeName(t)| && forall i :: 0 <= i < |b| ==> b[i] as int == TypeName(t)[i] as int
  }

  lemma NameIsAscii(t: EntityType)
    ensures forall i :: 0 <= i < |TypeName(t)| ==> TypeName(t)[i] < '\U{0080}'
  {
  }

  lemma SpelledBytes(t: EntityType)
    ensures forall b :: Spells(b, t) <==> b == AsciiBytes(TypeName(t))
  {
    NameIsAscii(t);
    forall b: seq<byte>
      ensures Spells(b, t) <==> b == AsciiBytes(TypeName(t))
    {
      if Spells(b, t) {
        assert forall i :: 0 <= i < |b| ==> b[i] as int == AsciiBytes(TypeName(t))[i] as int;
      }
    }
  }

  /** `b` spells a type whose name is nearest, with no earlier one as near, and within 3 edits. */
  ghost predicate Nearest(prefix: seq<byte>, t: EntityType, b: seq<byte>) {
    && Spells(b, t) && Dist(prefix, b) <= 3
    && (forall u, c :: Spells(c, u) ==> Dist(prefix, b) <= Dist(prefix, c))
    && (forall u, c :: Spells(c, u) && Dist(prefix, c) == Dist(prefix, b) ==>
          EntityRefLaws.TypeRank(t) <= EntityRefLaws.TypeRank(u))
  }

  ghost predicate Suggests(prefix: seq<byte>, t: EntityType) {
    exists b :: Nearest(prefix, t, b)
  }

  lemma ClosestSuggests(prefix: seq<byte>, k: nat)
    requires FirstClosest(prefix, k)
    ensures Suggests(prefix, ALL_TYPES[k])
  {
    var b := AsciiBytes(TypeName(ALL_TYPES[k]));
    SpelledBytes(ALL_TYPES[k]);
    RankInverse(k);
    forall u, c | Spells(c, u)
      ensures Dist(prefix, b) <= Dist(prefix, c)
      ensures Dist(prefix, c) == Dist(prefix, b) ==> k <= EntityRefLaws.TypeRank(u)
    {
      SpelledBytes(u);
      assert Dist(prefix, c) == DistanceTo(prefix, EntityRefLaws.TypeRank(u));
    }
    NearestOf(prefix, ALL_TYPES[k], b);
  }

  lemma NearestOf(prefix: seq<byte>, t: EntityType, b: seq<byte>)
    requires Nearest(prefix, t, b)
    ensures Suggests(prefix, t)
  {
  }

  lemma RankInverse(k: nat)
    requires k < |ALL_TYPES|
    ensures EntityRefLaws.TypeRank(ALL_TYPES[k]) == k
  {
  }

  /** There is one such type at most. */
  lemma SuggestsUnique(prefix: seq<byte>, t: EntityType, u: EntityType)
    requires Suggests(prefix, t) && Suggests(prefix, u)
    ensures t == u
  {
    var b :| Nearest(prefix, t, b);
    var c :| Nearest(prefix, u, c);
    assert Spells(b, t) && Spells(c, u);
    assert ALL_TYPES[EntityRefLaws.TypeRank(t)] == t && ALL_TYPES[EntityRefLaws.TypeRank(u)] == u;
  }

  lemma NoneSpelled(prefix: seq<byte>, t: EntityType, b: seq<byte>)
    requires Spells(b, t) && forall j: nat :: j < |ALL_TYPES| ==> DistanceTo(prefix, j) > 3
    ensures Dist(prefix, b) > 3
  {
    SpelledBytes(t);
    assert Dist(prefix, b) == DistanceTo(prefix, EntityRefLaws.TypeRank(t));
  }

  /** A name spelled right is suggested itself. */
  lemma SpelledRight(t: EntityType, prefix: seq<byte>, u: EntityType)
    requires Spells(prefix, t) && Suggests(prefix, u)
    ensures u == t
  {
    var b :| Nearest(prefix, u, b);
    NoNearer(prefix, u, b, t, prefix);
    DistZero(prefix, prefix);
    DistZero(prefix, b);
    SameSpelling(b, t, u);
  }

  lemma NoNearer(prefix: seq<byte>, t: EntityType, b: seq<byte>, u: EntityType, c: seq<byte>)
    requires Nearest(prefix, t, b) && Spells(c, u)
    ensures Spells(b, t) && Dist(prefix, b) <= Dist(prefix, c)
  {
  }

  lemma SameSpelling(b: seq<byte>, t: EntityType, u: EntityType)
    requires Spells(b, t) && Spells(b, u)
    ensures t == u
  {
    assert forall i :: 0 <= i < |b| ==> TypeName(t)[i] as int == TypeName(u)[i] as int;
    assert forall i :: 0 <= i < |b| ==> TypeName(t)[i] == TypeName(u)[i];
    assert TypeName(t) == TypeName(u);
    EntityRefLaws.TypeNameInjective(t, u);
  }

  lemma OneEditAway(e: Edit, b: seq<byte>)
    requires Applies(e, b)
    ensures Dist(Apply(e, b), b) <= 1
  {
    DistOneEdit(e, b, Apply(e, b));
    DistSymmetric(b, Apply(e, b));
  }

  lemma Suggested(prefix: seq<byte>, k: nat)
    requires FirstClosest(prefix, k)
    ensures Suggests(prefix, ALL_TYPES[k])
    ensures exists t, b :: Spells(b, t) && Dist(prefix, b) <= 3
    ensures forall t :: Spells(prefix, t) ==> t == ALL_TYPES[k]
  {
    ClosestSuggests(prefix, k);
    forall t | Spells(prefix, t)
      ensures t == ALL_TYPES[k]
    {
      SpelledRight(t, prefix, ALL_TYPES[k]);
    }
  }

  lemma NoSuggestion(prefix: seq<byte>)
    requires forall j: nat :: j < |ALL_TYPES| ==> DistanceTo(prefix, j) > 3
    ensures forall t, b :: Spells(b, t) ==> Dist(prefix, b) > 3
    ensures forall t, b, e :: Spells(b, t) && Applies(e, b) ==> Apply(e, b) != prefix
    ensures forall t :: !Spells(prefix, t)
  {
    forall t, b | Spells(b, t)
      ensures Dist(prefix, b) > 3
    {
      NoneSpelled(prefix, t, b);
    }
    forall t, b, e | Spells(b, t) && Applies(e, b)
      ensures Apply(e, b) != prefix
    {
      OneEditAway(e, b);
    }
    DistZero(prefix, prefix);
    forall t
      ensures !Spells(prefix, t)
    {
    }
  }

  /** Keeping the first minimum at most 3 among the first `k` distances. */
  method ClosestType(prefix: seq<byte>) returns (suggestion: Option<EntityType>)
    ensures suggestion.None? ==> forall j: nat :: j < |ALL_TYPES| ==> DistanceTo(prefix, j) > 3
    ensures suggestion.Some? ==>
              exists k: nat :: FirstClosest(prefix, k) && ALL_TYPES[k] == suggestion.value
    ensures suggestion.None? <==> forall t, b :: Spells(b, t) ==> Dist(prefix, b) > 3
    ensures suggestion.Some? ==> Suggests(prefix, suggestion.value)
    ensures forall t :: Spells(prefix, t) ==> suggestion == Some(t)
    ensures forall t, b, e :: Spells(b, t) && Applies(e, b) && Apply(e, b) == prefix ==> suggestion.Some?
  {
    var best := 4;
    var at: nat := 0;
    var k: nat := 0;
    while k < |ALL_TYPES|
      invariant k <= |ALL_TYPES| && ClosestOf(prefix, k, best, at)
    {
      var d := Levenshtein(prefix, AsciiBytes(TypeName(ALL_TYPES[k])));
      assert d == DistanceTo(prefix, k);
      CloserOf(prefix, k, best, at);
      if d < best {
        best, at := d, k;
      }
      k := k + 1;
    }
    if best < 4 {
      assert FirstClosest(prefix, at);
      Suggested(prefix, at);
      return Some(ALL_TYPES[at]);
    }
    NoSuggestion(prefix);
    return None;
  }
}
