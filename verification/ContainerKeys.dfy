/**
 The recorder's table of recording keys. Two maps are updated in place, from
 key to container and from container to its keys; together they are one map
 from key to container. Every method runs under the table's lock, so it is one
 atomic step.
 */
module ContainerKeys {
  import opened Ordering

  /** A cgroup ID or a mount namespace: a 64 bit number. */
  type Key = k: int | 0 <= k < 0x1_0000_0000_0000_0000

  /** The abstract table. */
  type Owners = map<Key, string>

  predicate KeyLe(a: Key, b: Key) {
    a <= b
  }

  ghost function KeysIn(m: Owners, container: string): set<Key> {
    set k | k in m && m[k] == container
  }

  /** What Insert makes of the abstract table, and whether it accepts. */
  ghost predicate Accepts(m: Owners, max: int, key: Key, container: string) {
    (key in m && m[key] == container) || |KeysIn(m, container)| < max
  }

  lemma {:induction false} AcceptsIff(m: Owners, max: int, key: Key, container: string)
    ensures Accepts(m, max, key, container) <==>
            (key in m && m[key] == container) || |set k | k in m && m[k] == container| < max
  {
    assert KeysIn(m, container) == set k | k in m && m[k] == container;
  }

  ghost function Inserted(m: Owners, max: int, key: Key, container: string): Owners {
    if Accepts(m, max, key, container) then m[key := container] else m
  }

  ghost function WithoutContainer(m: Owners, container: string): Owners {
    map k | k in m && m[k] != container :: m[k]
  }

  ghost predicate Bounded(m: Owners, max: int) {
    forall c: string :: KeysIn(m, c) == {} || |KeysIn(m, c)| <= max
  }

  /** The container map is the inverse of the key map, without empty entries. */
  ghost predicate Agree(m: Owners, sets: map<string, set<Key>>) {
    && (forall c | c in sets :: sets[c] == KeysIn(m, c) && sets[c] != {})
    && (forall k | k in m :: m[k] in sets)
  }

  /** The keys a lookup yields: none for a container that is not in the map. */
  function Lookup(sets: map<string, set<Key>>, container: string): set<Key> {
    if container in sets then sets[container] else {}
  }

  /** removeKeyFrom: drops the key from a container's set, and the set once it is empty. */
  function Dropped(sets: map<string, set<Key>>, container: string, key: Key): map<string, set<Key>> {
    var keys := Lookup(sets, container) - {key};
    if keys == {} then sets - {container} else sets[container := keys]
  }

  lemma {:induction false} SubsetSize<T>(a: set<T>, b: set<T>)
    requires a <= b
    ensures |a| <= |b|
    decreases b
  {
    if a != {} {
      var x :| x in a;
      SubsetSize(a - {x}, b - {x});
    }
  }

  lemma {:induction false} SortedKeyOrder()
    ensures TotalOrder(KeyLe)
  {
  }

  class Table {
    var byKey: map<Key, string>
    var byContainer: map<string, set<Key>>
    const maxPerContainer: int

    ghost function Owner(): Owners
      reads this
    {
      byKey
    }

    /** Both maps agree, no empty set is stored, and no container exceeds its bound. */
    ghost predicate Valid()
      reads this
    {
      Agree(byKey, byContainer) && Bounded(byKey, maxPerContainer)
    }

    constructor (maxPerContainer: int)
      ensures Valid() && Owner() == map[] && this.maxPerContainer == maxPerContainer
    {
      byKey, byContainer := map[], map[];
      this.maxPerContainer := maxPerContainer;
    }

    method RemoveKeyFrom(container: string, key: Key)
      modifies this`byContainer
      ensures byContainer == Dropped(old(byContainer), container, key)
    {
      var keys := Lookup(byContainer, container) - {key};
      if keys == {} {
        byContainer := byContainer - {container};
      } else {
        byContainer := byContainer[container := keys];
      }
    }

    /** A refused insertion changes nothing; an accepted one moves the key to the container. */
    method Insert(key: Key, container: string) returns (ok: bool)
      requires Valid()
      modifies this`byKey, this`byContainer
      ensures Valid() && ok == Accepts(old(Owner()), maxPerContainer, key, container)
      ensures Owner() == Inserted(old(Owner()), maxPerContainer, key, container)
      ensures ok <==> || (key in old(byKey) && old(byKey)[key] == container)
                      || |set k | k in old(byKey) && old(byKey)[k] == container| < maxPerContainer
      ensures byKey == if ok then old(byKey)[key := container] else old(byKey)
      ensures !ok ==> byContainer == old(byContainer)
    {
      AcceptsIff(byKey, maxPerContainer, key, container);
      LookupIsOwned(byKey, byContainer, container);
      var keys := Lookup(byContainer, container);
      if key in keys {
        assert byKey[key := container] == byKey;
        return true;
      }
      if |keys| >= maxPerContainer {
        return false;
      }
      InsertedBounded(byKey, maxPerContainer, key, container);
      AgreeInsert(byKey, byContainer, key, container);
      if key in byKey && byKey[key] != container {
        RemoveKeyFrom(byKey[key], key);
      }
      byKey := byKey[key := container];
      byContainer := byContainer[container := keys + {key}];
      return true;
    }

    method Get(key: Key) returns (container: string, ok: bool)
      requires Valid()
      ensures ok == (key in Owner()) && (ok ==> container == Owner()[key])
    {
      ok := key in byKey;
      container := if ok then byKey[key] else "";
    }

    method Delete(key: Key)
      requires Valid()
      modifies this`byKey, this`byContainer
      ensures Valid() && Owner() == old(Owner()) - {key}
    {
      if key in byKey {
        ghost var m := byKey;
        AgreeDrop(m, byContainer, key);
        RemoveKeyFrom(byKey[key], key);
        byKey := byKey - {key};
        ShrunkBounded(m, byKey, maxPerContainer);
      } else {
        assert byKey - {key} == byKey;
      }
    }

    method DeleteContainer(container: string)
      requires Valid()
      modifies this`byKey, this`byContainer
      ensures Valid() && Owner() == WithoutContainer(old(Owner()), container)
      ensures byKey == map k | k in old(byKey) && old(byKey)[k] != container :: old(byKey)[k]
    {
      LookupIsOwned(byKey, byContainer, container);
      var rest := Lookup(byContainer, container);
      ghost var m, owned := byKey, rest;
      while rest != {}
        invariant rest <= owned && byKey == m - (owned - rest)
        invariant byContainer == old(byContainer)
      {
        var k :| k in rest;
        byKey := byKey - {k};
        rest := rest - {k};
      }
      byContainer := byContainer - {container};
      assert byKey == WithoutContainer(m, container);
      AgreeWithout(m, old(byContainer), container);
      ShrunkBounded(m, byKey, maxPerContainer);
    }

    method Clear()
      modifies this`byKey, this`byContainer
      ensures Valid() && Owner() == map[]
    {
      byKey, byContainer := map[], map[];
    }

    /**
     keysOf: the ascending list of exactly the keys of the requested
     containers, however often and in whichever order those are requested.
     */
    method KeysOf(containers: seq<string>) returns (keys: seq<Key>)
      requires Valid()
      ensures Ascending(KeyLe, keys)
      ensures forall k :: k in keys <==> k in Owner() && Owner()[k] in containers
    {
      var collected: seq<Key> := [];
      for i := 0 to |containers|
        invariant forall k :: k in collected <==> k in byKey && byKey[k] in containers[..i]
      {
        LookupIsOwned(byKey, byContainer, containers[i]);
        var rest := Lookup(byContainer, containers[i]);
        ghost var before, owned := collected, rest;
        while rest != {}
          invariant rest <= owned
          invariant forall k :: k in collected <==> k in before || k in owned - rest
        {
          var k :| k in rest;
          rest := rest - {k};
          collected := collected + [k];
        }
        assert containers[..i + 1] == containers[..i] + [containers[i]];
      }
      assert containers[..|containers|] == containers;
      SortedKeyOrder();
      SortCompactLists(KeyLe, collected);
      keys := SortCompact(KeyLe, collected);
    }
  }

  // ---------------------------------------------------------------- the abstract table

  lemma {:induction false} InsertedKeys(m: Owners, key: Key, container: string)
    ensures KeysIn(m[key := container], container) == KeysIn(m, container) + {key}
    ensures forall c: string | c != container :: KeysIn(m[key := container], c) == KeysIn(m, c) - {key}
  {
    forall c: string | c != container
      ensures KeysIn(m[key := container], c) == KeysIn(m, c) - {key}
    {
    }
  }

  lemma {:induction false} DeletedKeys(m: Owners, key: Key)
    ensures forall c: string :: KeysIn(m - {key}, c) == KeysIn(m, c) - {key}
  {
    forall c: string
      ensures KeysIn(m - {key}, c) == KeysIn(m, c) - {key}
    {
    }
  }

  lemma {:induction false} LookupIsOwned(m: Owners, sets: map<string, set<Key>>, container: string)
    requires Agree(m, sets)
    ensures Lookup(sets, container) == KeysIn(m, container)
  {
  }

  lemma {:induction false} AgreeDrop(m: Owners, sets: map<string, set<Key>>, key: Key)
    requires Agree(m, sets) && key in m
    ensures Agree(m - {key}, Dropped(sets, m[key], key))
  {
    var c, sets' := m[key], Dropped(sets, m[key], key);
    DeletedKeys(m, key);
    forall d | d in sets'
      ensures sets'[d] == KeysIn(m - {key}, d) && sets'[d] != {}
    {
      assert d != c ==> key !in KeysIn(m, d);
    }
    forall k | k in m - {key}
      ensures m[k] in sets'
    {
      assert m[k] == c ==> k in sets[c] - {key};
    }
  }

  lemma {:induction false} AgreeAdd(m: Owners, sets: map<string, set<Key>>, key: Key, container: string)
    requires Agree(m, sets) && key !in m
    ensures Agree(m[key := container], sets[container := Lookup(sets, container) + {key}])
  {
    InsertedKeys(m, key, container);
    LookupIsOwned(m, sets, container);
  }

  /** A key that is not the container's own leaves its owner, if any, and joins the container. */
  lemma {:induction false} AgreeInsert(m: Owners, sets: map<string, set<Key>>, key: Key, container: string)
    requires Agree(m, sets) && key !in KeysIn(m, container)
    ensures var left := if key in m then Dropped(sets, m[key], key) else sets;
            Agree(m[key := container], left[container := Lookup(sets, container) + {key}])
  {
    if key in m {
      AgreeDrop(m, sets, key);
      AgreeAdd(m - {key}, Dropped(sets, m[key], key), key, container);
      assert (m - {key})[key := container] == m[key := container];
    } else {
      AgreeAdd(m, sets, key, container);
    }
  }

  lemma {:induction false} AgreeWithout(m: Owners, sets: map<string, set<Key>>, container: string)
    requires Agree(m, sets)
    ensures Agree(WithoutContainer(m, container), sets - {container})
  {
    forall c | c in sets && c != container
      ensures KeysIn(WithoutContainer(m, container), c) == KeysIn(m, c)
    {
    }
  }

  lemma {:induction false} InsertedBounded(m: Owners, max: int, key: Key, container: string)
    requires Bounded(m, max)
    ensures Bounded(Inserted(m, max, key, container), max)
  {
    if Accepts(m, max, key, container) {
      InsertedKeys(m, key, container);
      if key in m && m[key] == container {
        assert m[key := container] == m;
      }
      var m' := m[key := container];
      forall c: string
        ensures KeysIn(m', c) == {} || |KeysIn(m', c)| <= max
      {
        if c != container {
          SubsetSize(KeysIn(m', c), KeysIn(m, c));
        }
      }
    }
  }

  lemma {:induction false} ShrunkBounded(m: Owners, m': Owners, max: int)
    requires Bounded(m, max) && forall k | k in m' :: k in m && m'[k] == m[k]
    ensures Bounded(m', max)
  {
    forall c: string
      ensures KeysIn(m', c) == {} || |KeysIn(m', c)| <= max
    {
      SubsetSize(KeysIn(m', c), KeysIn(m, c));
    }
  }

  /** The keys of a container are one ascending list, whatever the request looks like. */
  lemma {:induction false} KeyListUnique(m: Owners, a: seq<Key>, b: seq<Key>, containers: seq<string>,
                                         containers': seq<string>)
    requires Ascending(KeyLe, a) && Ascending(KeyLe, b)
    requires forall c :: c in containers <==> c in containers'
    requires forall k :: k in a <==> k in m && m[k] in containers
    requires forall k :: k in b <==> k in m && m[k] in containers'
    ensures a == b
  {
    SortedKeyOrder();
    AscendingUnique(KeyLe, a, b);
  }
}
