/**
 The recorder's table of profiles being recorded for containers. Two maps of
 lists are updated in place; together they are one insertion-ordered relation
 without repetition between containers and profiles.
 */
module ContainerProfiles {

  /** Pairs of a container and a profile, oldest first. */
  type Relation = seq<(string, string)>

  type Index = map<string, seq<string>>

  function Flip(r: Relation): Relation {
    seq(|r|, i requires 0 <= i < |r| => (r[i].1, r[i].0))
  }

  /** What is paired with key, oldest first. */
  function Seconds(r: Relation, key: string): seq<string> {
    if r == [] then []
    else
      var k := |r| - 1;
      if r[k].0 == key then Seconds(r[..k], key) + [r[k].1] else Seconds(r[..k], key)
  }

  function Profiles(r: Relation, container: string): seq<string> {
    Seconds(r, container)
  }

  function Containers(r: Relation, profile: string): seq<string> {
    Seconds(Flip(r), profile)
  }

  function WithoutFirst(r: Relation, key: string): Relation {
    if r == [] then []
    else
      var k := |r| - 1;
      if r[k].0 == key then WithoutFirst(r[..k], key) else WithoutFirst(r[..k], key) + [r[k]]
  }

  function WithoutSecond(r: Relation, key: string): Relation {
    if r == [] then []
    else
      var k := |r| - 1;
      if r[k].1 == key then WithoutSecond(r[..k], key) else WithoutSecond(r[..k], key) + [r[k]]
  }

  predicate NoRepeat<T(==)>(s: seq<T>) {
    forall i, j | 0 <= i < j < |s| :: s[i] != s[j]
  }

  /** `without`: the list minus every occurrence of the item. */
  function Without(list: seq<string>, item: string): seq<string> {
    if list == [] then []
    else
      var k := |list| - 1;
      if list[k] == item then Without(list[..k], item) else Without(list[..k], item) + [list[k]]
  }

  function Lookup(m: Index, key: string): seq<string> {
    if key in m then m[key] else []
  }

  /** The map lists the relation by its first components, without empty entries. */
  ghost predicate Lists(m: Index, r: Relation) {
    && (forall k: string :: Lookup(m, k) == Seconds(r, k))
    && (forall k | k in m :: m[k] != [])
  }

  // ---------------------------------------------------------------- about the relation

  lemma {:induction false} SecondsMembers(r: Relation, key: string, x: string)
    ensures x in Seconds(r, key) <==> (key, x) in r
    decreases |r|
  {
    if r != [] {
      var k := |r| - 1;
      assert r == r[..k] + [r[k]];
      SecondsMembers(r[..k], key, x);
    }
  }

  lemma {:induction false} SecondsNoRepeat(r: Relation, key: string)
    requires NoRepeat(r)
    ensures NoRepeat(Seconds(r, key))
    decreases |r|
  {
    if r != [] {
      var k := |r| - 1;
      SecondsNoRepeat(r[..k], key);
      SecondsMembers(r[..k], key, r[k].1);
    }
  }

  lemma {:induction false} SingleIff(r: Relation, key: string, x: string)
    requires NoRepeat(r)
    ensures Seconds(r, key) == [x] <==> (key, x) in r && forall y | (key, y) in r :: y == x
  {
    var s := Seconds(r, key);
    SecondsNoRepeat(r, key);
    forall y
      ensures y in s <==> (key, y) in r
    {
      SecondsMembers(r, key, y);
    }
    assert |s| >= 2 ==> s[0] in s && s[1] in s && s[0] != s[1];
    assert |s| == 1 ==> s[0] in s && s == [s[0]];
  }

  /** One pair stands before the other. */
  ghost predicate InOrder(r: Relation, x: (string, string), y: (string, string)) {
    exists p, q | 0 <= p < q < |r| :: r[p] == x && r[q] == y
  }

  lemma {:induction false} PairKept(r: Relation, x: (string, string), y: (string, string))
    requires r != [] && InOrder(r[..|r| - 1], x, y)
    ensures InOrder(r, x, y)
  {
    var before := r[..|r| - 1];
    var p, q :| 0 <= p < q < |before| && before[p] == x && before[q] == y;
    assert r[p] == x && r[q] == y;
  }

  lemma {:induction false} OrderKept(r: Relation, s: Relation)
    requires r != [] && forall i, j | 0 <= i < j < |s| :: InOrder(r[..|r| - 1], s[i], s[j])
    ensures forall i, j | 0 <= i < j < |s| :: InOrder(r, s[i], s[j])
  {
    forall i, j | 0 <= i < j < |s|
      ensures InOrder(r, s[i], s[j])
    {
      PairKept(r, s[i], s[j]);
    }
  }

  lemma {:induction false} OrderEnds(r: Relation, s: Relation)
    requires r != [] && forall x | x in s :: x in r[..|r| - 1]
    ensures forall i | 0 <= i < |s| :: InOrder(r, s[i], r[|r| - 1])
  {
    forall i | 0 <= i < |s|
      ensures InOrder(r, s[i], r[|r| - 1])
    {
      assert s[i] in s;
      var p :| 0 <= p < |r| - 1 && r[..|r| - 1][p] == s[i];
      assert r[p] == s[i];
    }
  }

  /** Everything but the pairs of a first component stays, as often as before. */
  lemma {:induction false} WithoutFirstCounts(r: Relation, key: string)
    ensures forall x :: multiset(WithoutFirst(r, key))[x] == if x.0 == key then 0 else multiset(r)[x]
    decreases |r|
  {
    if r != [] {
      WithoutFirstCounts(r[..|r| - 1], key);
      assert r == r[..|r| - 1] + [r[|r| - 1]];
    }
  }

  lemma {:induction false} WithoutFirstMembers(r: Relation, key: string, x: (string, string))
    requires x in WithoutFirst(r, key)
    ensures x in r
    decreases |r|
  {
    if r != [] && x in WithoutFirst(r[..|r| - 1], key) {
      WithoutFirstMembers(r[..|r| - 1], key, x);
    }
  }

  lemma {:induction false} WithoutFirstOrder(r: Relation, key: string)
    ensures forall i, j | 0 <= i < j < |WithoutFirst(r, key)| ::
              InOrder(r, WithoutFirst(r, key)[i], WithoutFirst(r, key)[j])
    decreases |r|
  {
    if r != [] {
      var s := WithoutFirst(r[..|r| - 1], key);
      WithoutFirstOrder(r[..|r| - 1], key);
      OrderKept(r, s);
      forall x | x in s
        ensures x in r[..|r| - 1]
      {
        WithoutFirstMembers(r[..|r| - 1], key, x);
      }
      OrderEnds(r, s);
    }
  }

  /** Likewise for a second component. */
  lemma {:induction false} WithoutSecondCounts(r: Relation, key: string)
    ensures forall x :: multiset(WithoutSecond(r, key))[x] == if x.1 == key then 0 else multiset(r)[x]
    decreases |r|
  {
    if r != [] {
      WithoutSecondCounts(r[..|r| - 1], key);
      assert r == r[..|r| - 1] + [r[|r| - 1]];
    }
  }

  lemma {:induction false} WithoutSecondMembers(r: Relation, key: string, x: (string, string))
    requires x in WithoutSecond(r, key)
    ensures x in r
    decreases |r|
  {
    if r != [] && x in WithoutSecond(r[..|r| - 1], key) {
      WithoutSecondMembers(r[..|r| - 1], key, x);
    }
  }

  lemma {:induction false} WithoutSecondOrder(r: Relation, key: string)
    ensures forall i, j | 0 <= i < j < |WithoutSecond(r, key)| ::
              InOrder(r, WithoutSecond(r, key)[i], WithoutSecond(r, key)[j])
    decreases |r|
  {
    if r != [] {
      var s := WithoutSecond(r[..|r| - 1], key);
      WithoutSecondOrder(r[..|r| - 1], key);
      OrderKept(r, s);
      forall x | x in s
        ensures x in r[..|r| - 1]
      {
        WithoutSecondMembers(r[..|r| - 1], key, x);
      }
      OrderEnds(r, s);
    }
  }

  /** The first of them belongs to the oldest pair of the key. */
  lemma {:induction false} SecondsOldest(r: Relation, key: string)
    requires Seconds(r, key) != []
    ensures exists i | 0 <= i < |r| ::
              r[i] == (key, Seconds(r, key)[0]) && forall j | 0 <= j < i :: r[j].0 != key
    decreases |r|
  {
    var k := |r| - 1;
    if Seconds(r[..k], key) != [] {
      SecondsOldest(r[..k], key);
      var i :| 0 <= i < |r[..k]| && r[..k][i] == (key, Seconds(r[..k], key)[0])
               && forall j | 0 <= j < i :: r[..k][j].0 != key;
      assert r[i] == (key, Seconds(r, key)[0]);
      assert forall j | 0 <= j < i :: r[j] == r[..k][j];
    } else {
      forall j | 0 <= j < k
        ensures r[j].0 != key
      {
        SecondsMembers(r[..k], key, r[j].1);
        assert r[..k][j] in r[..k];
      }
      assert r[k] == (key, Seconds(r, key)[0]);
    }
  }

  lemma {:induction false} SecondsAppend(r: Relation, pair: (string, string), key: string)
    ensures Seconds(r + [pair], key) == if pair.0 == key then Seconds(r, key) + [pair.1] else Seconds(r, key)
  {
    assert (r + [pair])[..|r|] == r;
  }

  lemma {:induction false} FlipAppend(r: Relation, pair: (string, string))
    ensures Flip(r + [pair]) == Flip(r) + [(pair.1, pair.0)]
  {
  }

  lemma {:induction false} FlipMembers(r: Relation, a: string, b: string)
    ensures (a, b) in Flip(r) <==> (b, a) in r
  {
    if (b, a) in r {
      var i :| 0 <= i < |r| && r[i] == (b, a);
      assert Flip(r)[i] == (a, b);
    }
    if (a, b) in Flip(r) {
      var i :| 0 <= i < |Flip(r)| && Flip(r)[i] == (a, b);
      assert r[i] == (b, a);
    }
  }

  lemma {:induction false} SecondsWithoutFirst(r: Relation, gone: string, key: string)
    ensures Seconds(WithoutFirst(r, gone), key) == if key == gone then [] else Seconds(r, key)
    decreases |r|
  {
    if r != [] {
      var k := |r| - 1;
      SecondsWithoutFirst(r[..k], gone, key);
      SecondsAppend(WithoutFirst(r[..k], gone), r[k], key);
    }
  }

  lemma {:induction false} SecondsWithoutSecond(r: Relation, gone: string, key: string)
    ensures Seconds(WithoutSecond(r, gone), key) == Without(Seconds(r, key), gone)
    decreases |r|
  {
    if r != [] {
      var k := |r| - 1;
      SecondsWithoutSecond(r[..k], gone, key);
      SecondsAppend(WithoutSecond(r[..k], gone), r[k], key);
      WithoutAppend(Seconds(r[..k], key), r[k].1, gone);
    }
  }

  lemma {:induction false} WithoutAppend(list: seq<string>, x: string, item: string)
    ensures Without(list + [x], item) == if x == item then Without(list, item) else Without(list, item) + [x]
  {
    assert (list + [x])[..|list|] == list;
  }

  lemma {:induction false} WithoutAbsent(list: seq<string>, item: string)
    requires item !in list
    ensures Without(list, item) == list
    decreases |list|
  {
    if list != [] {
      var k := |list| - 1;
      assert list == list[..k] + [list[k]];
      WithoutAbsent(list[..k], item);
    }
  }

  lemma {:induction false} FlipWithout(r: Relation, gone: string)
    ensures Flip(WithoutFirst(r, gone)) == WithoutSecond(Flip(r), gone)
    ensures Flip(WithoutSecond(r, gone)) == WithoutFirst(Flip(r), gone)
    decreases |r|
  {
    if r != [] {
      var k := |r| - 1;
      assert Flip(r)[..k] == Flip(r[..k]);
      FlipWithout(r[..k], gone);
      FlipAppend(WithoutFirst(r[..k], gone), r[k]);
      FlipAppend(WithoutSecond(r[..k], gone), r[k]);
    }
  }

  lemma {:induction false} WithoutNoRepeat(r: Relation, gone: string)
    requires NoRepeat(r)
    ensures NoRepeat(WithoutFirst(r, gone)) && NoRepeat(WithoutSecond(r, gone))
    ensures forall p :: p in WithoutFirst(r, gone) <==> p in r && p.0 != gone
    ensures forall p :: p in WithoutSecond(r, gone) <==> p in r && p.1 != gone
    decreases |r|
  {
    if r != [] {
      var k := |r| - 1;
      assert r == r[..k] + [r[k]];
      WithoutNoRepeat(r[..k], gone);
    }
  }

  lemma {:induction false} OnlyItemLeft(list: seq<string>, item: string)
    requires NoRepeat(list)
    ensures Without(list, item) == [] && list != [] <==> list == [item]
    decreases |list|
  {
    if list != [] {
      var k := |list| - 1;
      OnlyItemLeft(list[..k], item);
      assert list == list[..k] + [list[k]];
    }
  }

  // ---------------------------------------------------------------- the table

  /** The keys whose list holds nothing but the item, in the order of keys. */
  function OnlyItem(m: Index, keys: seq<string>, item: string): seq<string> {
    if keys == [] then []
    else
      var k := |keys| - 1;
      if Without(Lookup(m, keys[k]), item) == [] then OnlyItem(m, keys[..k], item) + [keys[k]]
      else OnlyItem(m, keys[..k], item)
  }

  /** m' is m without the item in the lists of the given keys, and without empty lists. */
  ghost predicate ItemDropped(m: Index, m': Index, keys: seq<string>, item: string) {
    && (forall k: string :: Lookup(m', k) == if k in keys then Without(Lookup(m, k), item) else Lookup(m, k))
    && forall k | k in m' :: m'[k] != []
  }

  /** What the loop makes of the list of one key. */
  function Relisted(m: Index, key: string, left: seq<string>): Index {
    if left == [] then m - {key} else m[key := left]
  }

  lemma {:induction false} ItemDroppedNext(m: Index, m': Index, keys: seq<string>, item: string, i: nat)
    requires i < |keys| && keys[i] !in keys[..i] && ItemDropped(m, m', keys[..i], item)
    ensures Lookup(m', keys[i]) == Lookup(m, keys[i])
    ensures ItemDropped(m, Relisted(m', keys[i], Without(Lookup(m', keys[i]), item)), keys[..i + 1], item)
  {
    assert keys[..i + 1] == keys[..i] + [keys[i]];
  }

  lemma {:induction false} OnlyItemNext(m: Index, keys: seq<string>, item: string, i: nat)
    requires i < |keys|
    ensures OnlyItem(m, keys[..i + 1], item)
         == OnlyItem(m, keys[..i], item) + if Without(Lookup(m, keys[i]), item) == [] then [keys[i]] else []
  {
    assert keys[..i + 1][..i] == keys[..i];
  }

  /** Takes the item off the list of every key, drops empty lists and returns whose they were. */
  method DropItem(m: Index, keys: seq<string>, item: string) returns (m': Index, emptied: seq<string>)
    requires NoRepeat(keys) && forall k | k in m :: m[k] != []
    ensures ItemDropped(m, m', keys, item)
    ensures emptied == OnlyItem(m, keys, item)
  {
    m', emptied := m, [];
    for i := 0 to |keys|
      invariant ItemDropped(m, m', keys[..i], item)
      invariant emptied == OnlyItem(m, keys[..i], item)
    {
      assert keys[i] !in keys[..i];
      ItemDroppedNext(m, m', keys, item, i);
      OnlyItemNext(m, keys, item, i);
      var left := Without(Lookup(m', keys[i]), item);
      if left == [] {
        m' := m' - {keys[i]};
        emptied := emptied + [keys[i]];
      } else {
        m' := m'[keys[i] := left];
      }
    }
    assert keys[..|keys|] == keys;
  }

  class Table {
    var byContainer: Index
    var byProfile: Index
    ghost var relation: Relation

    ghost predicate Valid()
      reads this
    {
      NoRepeat(relation) && Lists(byContainer, relation) && Lists(byProfile, Flip(relation))
    }

    constructor ()
      ensures Valid() && relation == []
    {
      byContainer, byProfile, relation := map[], map[], [];
    }

    method Insert(container: string, profile: string)
      requires Valid()
      modifies this
      ensures Valid()
      ensures relation == if (container, profile) in old(relation) then old(relation)
                          else old(relation) + [(container, profile)]
    {
      SecondsMembers(relation, container, profile);
      SecondsMembers(Flip(relation), profile, container);
      FlipMembers(relation, profile, container);
      if profile !in Lookup(byContainer, container) {
        byContainer := byContainer[container := Lookup(byContainer, container) + [profile]];
      }
      if container !in Lookup(byProfile, profile) {
        byProfile := byProfile[profile := Lookup(byProfile, profile) + [container]];
      }
      if (container, profile) !in relation {
        ListsAppend(old(byContainer), relation, (container, profile));
        ListsAppend(old(byProfile), Flip(relation), (profile, container));
        FlipAppend(relation, (container, profile));
        relation := relation + [(container, profile)];
      }
    }

    /** The oldest remaining profile of a container. */
    method Get(container: string) returns (profile: string, ok: bool)
      requires Valid()
      ensures ok == exists p :: (container, p) in relation
      ensures ok ==> exists i | 0 <= i < |relation| ::
                relation[i] == (container, profile) && forall j | 0 <= j < i :: relation[j].0 != container
    {
      var profiles := Lookup(byContainer, container);
      if profiles == [] {
        forall p
          ensures (container, p) !in relation
        {
          SecondsMembers(relation, container, p);
        }
        return "", false;
      }
      SecondsMembers(relation, container, profiles[0]);
      SecondsOldest(relation, container);
      return profiles[0], true;
    }

    method Delete(container: string)
      requires Valid()
      modifies this
      ensures Valid() && relation == WithoutFirst(old(relation), container)
    {
      var profiles := Lookup(byContainer, container);
      SecondsNoRepeat(relation, container);
      var left, emptied := DropItem(byProfile, profiles, container);
      byProfile := left;
      byContainer := byContainer - {container};
      ListsWithoutFirst(old(byContainer), relation, container);
      FlipFlip(relation);
      ListsWithoutSecond(old(byProfile), byProfile, Flip(relation), profiles, container);
      FlipWithout(relation, container);
      WithoutNoRepeat(relation, container);
      relation := WithoutFirst(relation, container);
    }

    /** Forgets a profile and returns exactly the containers it was the only profile of. */
    method DeleteProfile(profile: string) returns (unused: seq<string>)
      requires Valid()
      modifies this
      ensures Valid() && relation == WithoutSecond(old(relation), profile)
      ensures forall c :: c in unused <==> Profiles(old(relation), c) == [profile]
      ensures forall c :: c in unused <==>
                (c, profile) in old(relation) && forall q | (c, q) in old(relation) :: q == profile
      ensures NoRepeat(unused)
    {
      forall c
        ensures Profiles(relation, c) == [profile] <==>
                (c, profile) in relation && forall q | (c, q) in relation :: q == profile
      {
        SingleIff(relation, c, profile);
      }
      var containers := Lookup(byProfile, profile);
      FlipNoRepeat(relation);
      SecondsNoRepeat(Flip(relation), profile);
      var left;
      left, unused := DropItem(byContainer, containers, profile);
      UnusedAreSingle(byContainer, relation, profile);
      byContainer := left;
      byProfile := byProfile - {profile};
      ListsWithoutFirst(old(byProfile), Flip(relation), profile);
      ListsWithoutSecond(old(byContainer), byContainer, relation, containers, profile);
      FlipWithout(relation, profile);
      WithoutNoRepeat(relation, profile);
      relation := WithoutSecond(relation, profile);
    }

    method Clear()
      modifies this
      ensures Valid() && relation == []
    {
      byContainer, byProfile, relation := map[], map[], [];
    }
  }

  lemma {:induction false} FlipFlip(r: Relation)
    ensures Flip(Flip(r)) == r
  {
  }

  lemma {:induction false} FlipNoRepeat(r: Relation)
    requires NoRepeat(r)
    ensures NoRepeat(Flip(r))
  {
  }

  lemma {:induction false} ListsAppend(m: Index, r: Relation, pair: (string, string))
    requires Lists(m, r)
    ensures Lists(m[pair.0 := Lookup(m, pair.0) + [pair.1]], r + [pair])
  {
    var m' := m[pair.0 := Lookup(m, pair.0) + [pair.1]];
    forall k: string
      ensures Lookup(m', k) == Seconds(r + [pair], k)
    {
      SecondsAppend(r, pair, k);
    }
  }

  lemma {:induction false} ListsWithoutFirst(m: Index, r: Relation, gone: string)
    requires Lists(m, r)
    ensures Lists(m - {gone}, WithoutFirst(r, gone))
  {
    forall k: string
      ensures Lookup(m - {gone}, k) == Seconds(WithoutFirst(r, gone), k)
    {
      SecondsWithoutFirst(r, gone, k);
    }
  }

  /** Dropping the item from the lists of the keys paired with it drops its pairs. */
  lemma {:induction false} ListsDropped(m: Index, m': Index, r: Relation, keys: seq<string>, gone: string)
    requires Lists(m, r) && forall k | k in m' :: m'[k] != []
    requires forall k: string :: Lookup(m', k) == if k in keys then Without(Lookup(m, k), gone) else Lookup(m, k)
    requires forall k: string :: k in keys <==> (k, gone) in r
    ensures Lists(m', WithoutSecond(r, gone))
  {
    forall k: string
      ensures Lookup(m', k) == Seconds(WithoutSecond(r, gone), k)
    {
      SecondsWithoutSecond(r, gone, k);
      SecondsMembers(r, k, gone);
      if k !in keys {
        WithoutAbsent(Seconds(r, k), gone);
      }
    }
  }

  lemma {:induction false} ListsWithoutSecond(m: Index, m': Index, flipped: Relation, keys: seq<string>, gone: string)
    requires Lists(m, flipped) && keys == Seconds(Flip(flipped), gone) && forall k | k in m' :: m'[k] != []
    requires forall k: string :: Lookup(m', k) == if k in keys then Without(Lookup(m, k), gone) else Lookup(m, k)
    ensures Lists(m', WithoutSecond(flipped, gone))
  {
    forall k: string
      ensures k in keys <==> (k, gone) in flipped
    {
      SecondsMembers(Flip(flipped), gone, k);
      FlipMembers(flipped, gone, k);
    }
    ListsDropped(m, m', flipped, keys, gone);
  }

  lemma {:induction false} OnlyItemMembers(m: Index, keys: seq<string>, item: string)
    requires NoRepeat(keys)
    ensures forall k :: k in OnlyItem(m, keys, item) <==> k in keys && Without(Lookup(m, k), item) == []
    ensures NoRepeat(OnlyItem(m, keys, item))
    decreases |keys|
  {
    if keys != [] {
      var k := |keys| - 1;
      assert keys == keys[..k] + [keys[k]];
      OnlyItemMembers(m, keys[..k], item);
    }
  }

  lemma {:induction false} UnusedAreSingle(m: Index, r: Relation, profile: string)
    requires Lists(m, r) && NoRepeat(r)
    ensures var unused := OnlyItem(m, Containers(r, profile), profile);
            NoRepeat(unused) && forall c :: c in unused <==> Profiles(r, c) == [profile]
  {
    FlipNoRepeat(r);
    SecondsNoRepeat(Flip(r), profile);
    OnlyItemMembers(m, Containers(r, profile), profile);
    forall c
      ensures c in OnlyItem(m, Containers(r, profile), profile) <==> Profiles(r, c) == [profile]
    {
      SecondsMembers(Flip(r), profile, c);
      FlipMembers(r, profile, c);
      SecondsMembers(r, c, profile);
      SecondsNoRepeat(r, c);
      OnlyItemLeft(Profiles(r, c), profile);
      assert Lookup(m, c) == Profiles(r, c);
    }
  }
}
