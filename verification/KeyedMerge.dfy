/**
 * Appending to a collection only those elements whose key is not there yet: the
 * rule that merging edges and appending edges share. `key` stands for the key
 * function; nothing else about the elements matters.
 */
module KeyedMerge {
  import opened Seqs

  function KeysOf<T(==), K(==)>(key: T -> K, s: seq<T>): set<K> {
    set x | x in s :: key(x)
  }

  /** The elements of a batch whose key is neither in `seen` nor taken by an earlier element. */
  function Fresh<T(==), K(==)>(key: T -> K, seen: set<K>, batch: seq<T>): seq<T> {
    if batch == [] then []
    else
      var before, x := batch[..|batch| - 1], batch[|batch| - 1];
      var kept := Fresh(key, seen, before);
      if key(x) in seen + KeysOf(key, before) then kept else kept + [x]
  }

  lemma KeysConcat<T, K>(key: T -> K, a: seq<T>, b: seq<T>)
    ensures KeysOf(key, a + b) == KeysOf(key, a) + KeysOf(key, b)
  {
  }

  lemma KeysOne<T, K>(key: T -> K, x: T)
    ensures KeysOf(key, [x]) == {key(x)}
  {
    assert x in [x];
  }

  lemma KeysStep<T, K>(key: T -> K, batch: seq<T>, i: nat)
    requires i < |batch|
    ensures KeysOf(key, batch[..i + 1]) == KeysOf(key, batch[..i]) + {key(batch[i])}
  {
    assert batch[..i + 1] == batch[..i] + [batch[i]];
    KeysConcat(key, batch[..i], [batch[i]]);
  }

  lemma FreshStep<T, K>(key: T -> K, seen: set<K>, batch: seq<T>, i: nat)
    requires i < |batch|
    ensures Fresh(key, seen, batch[..i + 1])
         == if key(batch[i]) in seen + KeysOf(key, batch[..i]) then Fresh(key, seen, batch[..i])
            else Fresh(key, seen, batch[..i]) + [batch[i]]
  {
    assert batch[..i + 1][..i] == batch[..i];
  }

  lemma KeysLast<T, K>(key: T -> K, batch: seq<T>)
    requires batch != []
    ensures KeysOf(key, batch) == KeysOf(key, batch[..|batch| - 1]) + {key(batch[|batch| - 1])}
  {
    KeysStep(key, batch, |batch| - 1);
    assert batch[..|batch|] == batch;
  }

  /** What is appended carries exactly the new keys of the batch ... */
  lemma {:induction false} FreshKeys<T, K>(key: T -> K, seen: set<K>, batch: seq<T>)
    ensures KeysOf(key, Fresh(key, seen, batch)) == KeysOf(key, batch) - seen
  {
    if batch != [] {
      var before, x := batch[..|batch| - 1], batch[|batch| - 1];
      FreshKeys(key, seen, before);
      KeysLast(key, batch);
      if key(x) !in seen + KeysOf(key, before) {
        KeysConcat(key, Fresh(key, seen, before), [x]);
      }
    }
  }

  ghost predicate DistinctKeys<T, K>(key: T -> K, s: seq<T>) {
    forall i, j :: 0 <= i < j < |s| ==> key(s[i]) != key(s[j])
  }

  lemma DistinctPush<T, K>(key: T -> K, s: seq<T>, x: T)
    requires DistinctKeys(key, s) && key(x) !in KeysOf(key, s)
    ensures DistinctKeys(key, s + [x])
  {
    forall i | 0 <= i < |s|
      ensures key(s[i]) != key(x)
    {
      assert s[i] in s;
    }
  }

  /** ... and each of them once. */
  lemma {:induction false} FreshDistinct<T, K>(key: T -> K, seen: set<K>, batch: seq<T>)
    ensures DistinctKeys(key, Fresh(key, seen, batch))
  {
    if batch != [] {
      var before, x := batch[..|batch| - 1], batch[|batch| - 1];
      FreshDistinct(key, seen, before);
      FreshKeys(key, seen, before);
      if key(x) !in seen + KeysOf(key, before) {
        DistinctPush(key, Fresh(key, seen, before), x);
      }
    }
  }

  lemma {:induction false} FreshSubset<T, K>(key: T -> K, seen: set<K>, batch: seq<T>)
    ensures forall x :: x in Fresh(key, seen, batch) ==> x in batch
  {
    if batch != [] {
      FreshSubset(key, seen, batch[..|batch| - 1]);
    }
  }

  lemma {:induction false} FreshAgree<T, K>(key: T -> K, seen: set<K>, seen': set<K>, batch: seq<T>)
    requires forall k :: k in KeysOf(key, batch) ==> (k in seen <==> k in seen')
    ensures Fresh(key, seen, batch) == Fresh(key, seen', batch)
  {
    if batch != [] {
      KeysLast(key, batch);
      FreshAgree(key, seen, seen', batch[..|batch| - 1]);
    }
  }

  /** Only the part of `seen` that meets the batch matters, and that part does. */
  lemma FreshDependsOn<T, K>(key: T -> K, seen: set<K>, seen': set<K>, batch: seq<T>)
    ensures Fresh(key, seen, batch) == Fresh(key, seen', batch)
            <==> forall k :: k in KeysOf(key, batch) ==> (k in seen <==> k in seen')
  {
    FreshKeys(key, seen, batch);
    FreshKeys(key, seen', batch);
    if Fresh(key, seen, batch) == Fresh(key, seen', batch) {
      forall k | k in KeysOf(key, batch)
        ensures k in seen <==> k in seen'
      {
        assert k in KeysOf(key, batch) - seen <==> k in KeysOf(key, batch) - seen';
      }
    } else if forall k :: k in KeysOf(key, batch) ==> (k in seen <==> k in seen') {
      FreshAgree(key, seen, seen', batch);
    }
  }

  lemma FreshLast<T, K>(key: T -> K, seen: set<K>, before: seq<T>, x: T)
    ensures Fresh(key, seen, before + [x])
         == if key(x) in seen + KeysOf(key, before) then Fresh(key, seen, before)
            else Fresh(key, seen, before) + [x]
  {
    assert (before + [x])[..|before|] == before;
  }

  lemma SplitLast<T>(a: seq<T>, before: seq<T>, x: T, b: seq<T>)
    requires b != [] && before == b[..|b| - 1] && x == b[|b| - 1]
    ensures b == before + [x] && a + b == (a + before) + [x]
  {
  }

  lemma {:induction false} FreshConcat<T, K>(key: T -> K, seen: set<K>, a: seq<T>, b: seq<T>)
    ensures Fresh(key, seen, a + b) == Fresh(key, seen, a) + Fresh(key, seen + KeysOf(key, a), b)
    decreases |b|
  {
    if b == [] {
      assert a + b == a;
    } else {
      var before, x := b[..|b| - 1], b[|b| - 1];
      var seen' := seen + KeysOf(key, a);
      SplitLast(a, before, x, b);
      FreshConcat(key, seen, a, before);
      FreshLast(key, seen, a + before, x);
      FreshLast(key, seen', before, x);
      KeysConcat(key, a, before);
      assert seen + KeysOf(key, a + before) == seen' + KeysOf(key, before);
      Associate(Fresh(key, seen, a), Fresh(key, seen', before), [x]);
    }
  }

  lemma {:induction false} FreshNone<T, K>(key: T -> K, seen: set<K>, batch: seq<T>)
    requires KeysOf(key, batch) <= seen
    ensures Fresh(key, seen, batch) == []
  {
    if batch != [] {
      KeysLast(key, batch);
      FreshNone(key, seen, batch[..|batch| - 1]);
    }
  }

  /** Nothing is appended exactly when every key is there. */
  lemma FreshNoneExactly<T, K>(key: T -> K, seen: set<K>, batch: seq<T>)
    ensures Fresh(key, seen, batch) == [] <==> KeysOf(key, batch) <= seen
  {
    FreshKeys(key, seen, batch);
    if KeysOf(key, batch) <= seen {
      FreshNone(key, seen, batch);
    } else {
      var k :| k in KeysOf(key, batch) && k !in seen;
      assert k in KeysOf(key, batch) - seen;
    }
  }

  // ---- when the order of a batch matters ----

  ghost predicate SameMembers<T(!new)>(a: seq<T>, b: seq<T>) {
    forall x :: x in a <==> x in b
  }

  /** No two different elements share a key. */
  ghost predicate KeyDetermines<T(!new), K>(key: T -> K, batch: seq<T>) {
    forall x, y :: x in batch && y in batch && key(x) == key(y) ==> x == y
  }

  lemma FreshIfDetermined<T(!new), K>(key: T -> K, batch: seq<T>)
    requires KeyDetermines(key, batch)
    ensures SameMembers(Fresh(key, {}, batch), batch)
  {
    FreshSubset(key, {}, batch);
    FreshKeys(key, {}, batch);
    forall x | x in batch
      ensures x in Fresh(key, {}, batch)
    {
      assert key(x) in KeysOf(key, batch) - {};
      var y :| y in Fresh(key, {}, batch) && key(y) == key(x);
    }
  }

  lemma FirstIsFresh<T, K>(key: T -> K, batch: seq<T>)
    requires batch != []
    ensures batch[0] in Fresh(key, {}, batch)
  {
    var first, rest := [batch[0]], batch[1..];
    assert batch == first + rest;
    FreshConcat(key, {}, first, rest);
    FreshLast(key, {}, [], batch[0]);
    assert [] + [batch[0]] == first;
  }

  lemma MoveToFront<T>(batch: seq<T>, x: T) returns (other: seq<T>)
    requires x in batch
    ensures multiset(other) == multiset(batch) && other != [] && other[0] == x
  {
    var i :| 0 <= i < |batch| && batch[i] == x;
    other := [x] + (batch[..i] + batch[i + 1..]);
    assert batch == batch[..i] + ([x] + batch[i + 1..]);
  }

  /** Whatever the order of the batch, the same elements are kept. */
  ghost predicate OrderFree<T(!new), K(!new)>(key: T -> K, batch: seq<T>) {
    forall other :: multiset(other) == multiset(batch) ==>
                      SameMembers(Fresh(key, {}, other), Fresh(key, {}, batch))
  }

  /** That is so exactly when keys determine the elements. */
  lemma OrderIrrelevant<T(!new), K(!new)>(key: T -> K, batch: seq<T>)
    ensures OrderFree(key, batch) <==> KeyDetermines(key, batch)
  {
    if KeyDetermines(key, batch) {
      DeterminedIsOrderFree(key, batch);
    }
    if OrderFree(key, batch) {
      FreshDistinct(key, {}, batch);
      forall x, y | x in batch && y in batch && key(x) == key(y)
        ensures x == y
      {
        FrontIsFresh(key, batch, x);
        FrontIsFresh(key, batch, y);
        DistinctMembers(key, Fresh(key, {}, batch), x, y);
      }
    }
  }

  lemma DeterminedIsOrderFree<T(!new), K(!new)>(key: T -> K, batch: seq<T>)
    requires KeyDetermines(key, batch)
    ensures OrderFree(key, batch)
  {
    FreshIfDetermined(key, batch);
    forall other | multiset(other) == multiset(batch)
      ensures SameMembers(Fresh(key, {}, other), Fresh(key, {}, batch))
    {
      assert forall x :: x in other <==> x in multiset(other);
      assert forall x :: x in batch <==> x in multiset(batch);
      FreshIfDetermined(key, other);
    }
  }

  lemma DistinctMembers<T, K>(key: T -> K, s: seq<T>, x: T, y: T)
    requires DistinctKeys(key, s) && x in s && y in s && key(x) == key(y)
    ensures x == y
  {
    var i :| 0 <= i < |s| && s[i] == x;
    var j :| 0 <= j < |s| && s[j] == y;
  }

  lemma FrontIsFresh<T(!new), K(!new)>(key: T -> K, batch: seq<T>, x: T)
    requires x in batch && OrderFree(key, batch)
    ensures x in Fresh(key, {}, batch)
  {
    var other := MoveToFront(batch, x);
    FirstIsFresh(key, other);
  }

  // ---- when the order of the parts of a batch matters ----

  lemma {:induction false} FreshShrinks<T, K>(key: T -> K, seen: set<K>, more: set<K>, batch: seq<T>)
    ensures forall x :: x in Fresh(key, seen + more, batch) <==> x in Fresh(key, seen, batch) && key(x) !in more
  {
    if batch != [] {
      FreshShrinks(key, seen, more, batch[..|batch| - 1]);
    }
  }

  /** An element of one of the parts that is kept there, with a key that is not there yet. */
  ghost predicate KeptInPart<S(!new), T, K>(key: T -> K, f: S -> seq<T>, seen: set<K>, parts: set<S>, x: T) {
    key(x) !in seen && exists s :: s in parts && x in Fresh(key, {}, f(s))
  }

  lemma {:induction false} FreshOfParts<S(!new), T, K>(key: T -> K, f: S -> seq<T>, seen: set<K>, order: seq<S>, x: T)
    requires x in Fresh(key, seen, FlatMap(f, order))
    ensures KeptInPart(key, f, seen, Members(order), x)
  {
    if order != [] {
      var n := |order| - 1;
      var before, last := FlatMap(f, order[..n]), order[n];
      FreshConcat(key, seen, before, f(last));
      if x in Fresh(key, seen, before) {
        FreshOfParts(key, f, seen, order[..n], x);
        var s :| s in order[..n] && x in Fresh(key, {}, f(s));
        assert s in order;
      } else {
        FreshShrinks(key, {}, seen + KeysOf(key, before), f(last));
        assert {} + (seen + KeysOf(key, before)) == seen + KeysOf(key, before);
        assert last in order;
      }
    }
  }

  lemma {:induction false} PartKeys<S(!new), T, K>(key: T -> K, f: S -> seq<T>, order: seq<S>, s: S)
    requires s in order
    ensures KeysOf(key, f(s)) <= KeysOf(key, FlatMap(f, order))
  {
    var n := |order| - 1;
    KeysConcat(key, FlatMap(f, order[..n]), f(order[n]));
    if s in order[..n] {
      PartKeys(key, f, order[..n], s);
    } else {
      DropLast(order);
    }
  }

  /** What two parts keep under one new key is the same. */
  ghost predicate PartsAgree<S(!new), T(!new), K>(key: T -> K, f: S -> seq<T>, seen: set<K>, parts: set<S>) {
    forall x, y :: KeptInPart(key, f, seen, parts, x) && KeptInPart(key, f, seen, parts, y) && key(x) == key(y) ==>
                     x == y
  }

  /** In whatever order the parts come, the same elements are kept. */
  ghost predicate PartOrderFree<S(!new), T(!new), K>(key: T -> K, f: S -> seq<T>, seen: set<K>, parts: set<S>) {
    forall a: seq<S>, b: seq<S> :: Members(a) == parts && Members(b) == parts ==>
      SameMembers(Fresh(key, seen, FlatMap(f, a)), Fresh(key, seen, FlatMap(f, b)))
  }

  lemma PartsKept<S(!new), T(!new), K>(key: T -> K, f: S -> seq<T>, seen: set<K>, parts: set<S>, order: seq<S>, x: T)
    requires PartsAgree(key, f, seen, parts) && Members(order) == parts
    ensures x in Fresh(key, seen, FlatMap(f, order)) <==> KeptInPart(key, f, seen, parts, x)
  {
    var all := FlatMap(f, order);
    if x in Fresh(key, seen, all) {
      FreshOfParts(key, f, seen, order, x);
    }
    if KeptInPart(key, f, seen, parts, x) {
      var s :| s in parts && x in Fresh(key, {}, f(s));
      FreshSubset(key, {}, f(s));
      PartKeys(key, f, order, s);
      FreshKeys(key, seen, all);
      assert key(x) in KeysOf(key, f(s));
      assert key(x) in KeysOf(key, Fresh(key, seen, all));
      var y :| y in Fresh(key, seen, all) && key(y) == key(x);
      FreshOfParts(key, f, seen, order, y);
    }
  }

  lemma FirstPartKept<S(!new), T, K>(key: T -> K, f: S -> seq<T>, seen: set<K>, s: S, rest: seq<S>, x: T)
    requires x in Fresh(key, {}, f(s)) && key(x) !in seen
    ensures x in Fresh(key, seen, FlatMap(f, [s] + rest))
  {
    FlatMapConcat(f, [s], rest);
    FlatMapOne(f, s);
    FreshConcat(key, seen, f(s), FlatMap(f, rest));
    FreshShrinks(key, {}, seen, f(s));
    assert {} + seen == seen;
  }

  lemma {:induction false} Enumerate<S>(parts: set<S>) returns (order: seq<S>)
    ensures Members(order) == parts
    decreases parts
  {
    if parts == {} {
      return [];
    }
    var s :| s in parts;
    var rest := Enumerate(parts - {s});
    order := [s] + rest;
    assert forall t :: t in order <==> t == s || t in rest;
    assert forall t :: t in rest <==> t in Members(rest);
  }

  /** The order of the parts is irrelevant exactly when they agree on what they keep under a new key. */
  lemma PartOrderIrrelevant<S(!new), T(!new), K>(key: T -> K, f: S -> seq<T>, seen: set<K>, parts: set<S>)
    ensures PartOrderFree(key, f, seen, parts) <==> PartsAgree(key, f, seen, parts)
  {
    if PartsAgree(key, f, seen, parts) {
      forall a: seq<S>, b: seq<S> | Members(a) == parts && Members(b) == parts
        ensures SameMembers(Fresh(key, seen, FlatMap(f, a)), Fresh(key, seen, FlatMap(f, b)))
      {
        forall x
          ensures x in Fresh(key, seen, FlatMap(f, a)) <==> x in Fresh(key, seen, FlatMap(f, b))
        {
          PartsKept(key, f, seen, parts, a, x);
          PartsKept(key, f, seen, parts, b, x);
        }
      }
    }
    if PartOrderFree(key, f, seen, parts) {
      forall x, y | KeptInPart(key, f, seen, parts, x) && KeptInPart(key, f, seen, parts, y) && key(x) == key(y)
        ensures x == y
      {
        KeptTogether(key, f, seen, parts, x, y);
      }
    }
  }

  lemma KeptTogether<S(!new), T(!new), K>(key: T -> K, f: S -> seq<T>, seen: set<K>, parts: set<S>, x: T, y: T)
    requires PartOrderFree(key, f, seen, parts)
    requires KeptInPart(key, f, seen, parts, x) && KeptInPart(key, f, seen, parts, y) && key(x) == key(y)
    ensures x == y
  {
    var s :| s in parts && x in Fresh(key, {}, f(s));
    var t :| t in parts && y in Fresh(key, {}, f(t));
    var rest := Enumerate(parts);
    PartsInFront(parts, s, rest);
    PartsInFront(parts, t, rest);
    FirstPartKept(key, f, seen, s, rest, x);
    FirstPartKept(key, f, seen, t, rest, y);
    KeptInOrders(key, f, seen, parts, [s] + rest, [t] + rest, x, y);
  }

  lemma KeptInOrders<S(!new), T(!new), K>(key: T -> K, f: S -> seq<T>, seen: set<K>, parts: set<S>, a: seq<S>,
                                          b: seq<S>, x: T, y: T)
    requires PartOrderFree(key, f, seen, parts) && Members(a) == parts && Members(b) == parts
    requires x in Fresh(key, seen, FlatMap(f, a)) && y in Fresh(key, seen, FlatMap(f, b)) && key(x) == key(y)
    ensures x == y
  {
    FreshDistinct(key, seen, FlatMap(f, a));
    SameDistinct(key, Fresh(key, seen, FlatMap(f, a)), Fresh(key, seen, FlatMap(f, b)), x, y);
  }

  lemma SameDistinct<T(!new), K>(key: T -> K, a: seq<T>, b: seq<T>, x: T, y: T)
    requires DistinctKeys(key, a) && SameMembers(a, b) && x in a && y in b && key(x) == key(y)
    ensures x == y
  {
    DistinctMembers(key, a, x, y);
  }

  lemma PartsInFront<S>(parts: set<S>, s: S, rest: seq<S>)
    requires s in parts && Members(rest) == parts
    ensures Members([s] + rest) == parts
  {
    assert forall t :: t in rest <==> t in Members(rest);
  }

  /** The loop over a mutable `seen` set that computes `Fresh`. */
  method CollectFresh<T(==), K(==)>(key: T -> K, present: set<K>, batch: seq<T>) returns (added: seq<T>)
    ensures added == Fresh(key, present, batch)
  {
    added := [];
    var seen := present;
    for i := 0 to |batch|
      invariant seen == present + KeysOf(key, batch[..i])
      invariant added == Fresh(key, present, batch[..i])
    {
      KeysStep(key, batch, i);
      FreshStep(key, present, batch, i);
      var k := key(batch[i]);
      if k !in seen {
        seen := seen + {k};
        added := added + [batch[i]];
      }
    }
    assert batch[..|batch|] == batch;
  }
}
