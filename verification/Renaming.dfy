/** A map from slots laid out as a map from their paths. */
module Renaming {
  /** The disk holds what the store holds, each at its path, and nothing else. */
  ghost predicate Stored<S(!new), P(!new), C>(path: S -> P, store: map<S, C>, disk: map<P, C>) {
    && (forall s :: s in store ==> path(s) in disk && disk[path(s)] == store[s])
    && (forall p :: p in disk ==> exists s :: s in store && path(s) == p)
  }

  lemma ReadStored<S(!new), P(!new), C>(path: S -> P, store: map<S, C>, disk: map<P, C>, slot: S)
    requires Stored(path, store, disk)
    requires forall s :: s in store ==> (path(s) == path(slot) <==> s == slot)
    ensures path(slot) in disk <==> slot in store
    ensures slot in store ==> disk[path(slot)] == store[slot]
  {
  }

  lemma WriteStored<S(!new), P(!new), C>(path: S -> P, store: map<S, C>, disk: map<P, C>, slot: S, content: C)
    requires Stored(path, store, disk)
    requires forall s :: s in store ==> (path(s) == path(slot) <==> s == slot)
    ensures Stored(path, store[slot := content], disk[path(slot) := content])
  {
    var store', disk' := store[slot := content], disk[path(slot) := content];
    forall p | p in disk'
      ensures exists s :: s in store' && path(s) == p
    {
      if p == path(slot) {
        assert slot in store';
      } else {
        var s :| s in store && path(s) == p;
        assert s in store';
      }
    }
  }

  lemma RemoveStored<S(!new), P(!new), C>(path: S -> P, store: map<S, C>, disk: map<P, C>, slots: set<S>,
                                          paths: set<P>)
    requires Stored(path, store, disk)
    requires forall s :: s in store ==> (path(s) in paths <==> s in slots)
    ensures Stored(path, store - slots, disk - paths)
  {
    forall p | p in disk - paths
      ensures exists s :: s in store - slots && path(s) == p
    {
      var s :| s in store && path(s) == p;
      assert s in store - slots;
    }
  }

  lemma OneStored<S(!new), P(!new), C>(path: S -> P, slot: S, content: C)
    ensures Stored(path, map[slot := content], map[path(slot) := content])
  {
    assert slot in map[slot := content];
  }

  lemma MissingIsNotStored<S(!new), P(!new), C>(path: S -> P, store: map<S, C>, disk: map<P, C>, slot: S)
    requires slot in store && path(slot) !in disk
    ensures !Stored(path, store, disk)
  {
  }

  /** Contents that change in step stay stored. */
  lemma RewriteStored<S(!new), P(!new), C>(path: S -> P, store: map<S, C>, disk: map<P, C>, store': map<S, C>,
                                           disk': map<P, C>)
    requires Stored(path, store, disk) && store'.Keys == store.Keys && disk'.Keys == disk.Keys
    requires forall s :: s in store ==> path(s) in disk' && disk'[path(s)] == store'[s]
    ensures Stored(path, store', disk')
  {
    forall s | s in store'
      ensures path(s) in disk' && disk'[path(s)] == store'[s]
    {
      assert s in store.Keys;
    }
    forall p | p in disk'
      ensures exists s :: s in store' && path(s) == p
    {
      assert p in disk.Keys;
      var s :| s in store && path(s) == p;
      assert s in store'.Keys;
    }
  }
}
