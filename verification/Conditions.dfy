/**
 The conditions of a status: a list that is used as a map from condition type
 to condition, updated in place.
 */
module Conditions {
  import opened Ordering
  import opened Wrappers

  datatype Condition = Condition(
    kind: string,            // the condition type
    status: string,
    reason: string,
    message: string,
    transitionTime: int,
    generation: int)

  /** conditionsEqual: the transition time and the generation do not count. */
  predicate SameCondition(a: Condition, b: Condition) {
    a.kind == b.kind && a.status == b.status && a.reason == b.reason && a.message == b.message
  }

  predicate UniqueKinds(s: seq<Condition>) {
    forall i, j | 0 <= i < j < |s| :: s[i].kind != s[j].kind
  }

  predicate HasKind(s: seq<Condition>, kind: string) {
    exists i | 0 <= i < |s| :: s[i].kind == kind
  }

  // ---------------------------------------------------------------- setting conditions

  /** What an existing condition becomes when another one is set. */
  function Replaced(old_: Condition, c: Condition): Condition {
    if old_.kind == c.kind && !SameCondition(old_, c) then c else old_
  }

  function ReplaceAll(s: seq<Condition>, c: Condition): seq<Condition> {
    seq(|s|, i requires 0 <= i < |s| => Replaced(s[i], c))
  }

  function SetOne(s: seq<Condition>, c: Condition): seq<Condition> {
    if HasKind(s, c.kind) then ReplaceAll(s, c) else s + [c]
  }

  function SetAll(s: seq<Condition>, cs: seq<Condition>): seq<Condition> {
    if cs == [] then s else SetOne(SetAll(s, cs[..|cs| - 1]), cs[|cs| - 1])
  }

  /** The entry a list has for a kind. */
  ghost predicate EntryIs(s: seq<Condition>, kind: string, c: Condition) {
    c.kind == kind && c in s && forall d | d in s && d.kind == kind :: d == c
  }

  /**
   Setting one condition: kinds stay unique, every other entry stays where it
   is, and the entry of its kind is the old one if that says the same, with its
   transition time, and the new one otherwise.
   */
  lemma {:induction false} SetOneEffect(s: seq<Condition>, c: Condition)
    requires UniqueKinds(s)
    ensures UniqueKinds(SetOne(s, c))
    ensures forall i | 0 <= i < |s| && s[i].kind != c.kind :: SetOne(s, c)[i] == s[i]
    ensures forall d | d in SetOne(s, c) && d.kind != c.kind :: d in s
    ensures forall k :: HasKind(SetOne(s, c), k) <==> HasKind(s, k) || k == c.kind
    ensures forall old_ | old_ in s && SameCondition(old_, c) :: EntryIs(SetOne(s, c), c.kind, old_)
    ensures (forall old_ | old_ in s :: !SameCondition(old_, c)) ==> EntryIs(SetOne(s, c), c.kind, c)
  {
    var t := SetOne(s, c);
    assert forall i | 0 <= i < |s| :: t[i].kind == s[i].kind;
    forall k
      ensures HasKind(t, k) <==> HasKind(s, k) || k == c.kind
    {
      if HasKind(s, k) {
        var i :| 0 <= i < |s| && s[i].kind == k;
        assert t[i].kind == k;
      }
      if !HasKind(s, c.kind) {
        assert t[|s|] == c;
      }
    }
    forall old_ | old_ in s && SameCondition(old_, c)
      ensures EntryIs(t, c.kind, old_)
    {
      var i :| 0 <= i < |s| && s[i] == old_;
      assert t[i] == old_;
    }
    if forall old_ | old_ in s :: !SameCondition(old_, c) {
      if HasKind(s, c.kind) {
        var i :| 0 <= i < |s| && s[i].kind == c.kind;
        assert s[i] in s && t[i] == c;
      } else {
        assert t[|s|] == c;
      }
    }
  }

  /** Setting any list of conditions keeps kinds unique and leaves unsupplied kinds alone. */
  lemma {:induction false} SetAllEffect(s: seq<Condition>, cs: seq<Condition>)
    requires UniqueKinds(s)
    ensures UniqueKinds(SetAll(s, cs)) && |SetAll(s, cs)| >= |s|
    ensures forall i | 0 <= i < |s| && !HasKind(cs, s[i].kind) :: SetAll(s, cs)[i] == s[i]
    ensures forall k :: HasKind(SetAll(s, cs), k) <==> HasKind(s, k) || HasKind(cs, k)
    decreases |cs|
  {
    if cs != [] {
      var k := |cs| - 1;
      var before := SetAll(s, cs[..k]);
      SetAllEffect(s, cs[..k]);
      SetOneEffect(before, cs[k]);
      KindsNext(cs);
      forall i | 0 <= i < |s| && !HasKind(cs, s[i].kind)
        ensures SetAll(s, cs)[i] == s[i]
      {
        assert !HasKind(cs[..k], s[i].kind) && before[i] == s[i];
      }
    }
  }

  lemma {:induction false} KindsNext(cs: seq<Condition>)
    requires cs != []
    ensures forall kind :: HasKind(cs, kind) <==> HasKind(cs[..|cs| - 1], kind) || cs[|cs| - 1].kind == kind
  {
    var k := |cs| - 1;
    assert cs == cs[..k] + [cs[k]];
    forall kind
      ensures HasKind(cs, kind) <==> HasKind(cs[..k], kind) || cs[k].kind == kind
    {
      assert forall i | 0 <= i < k :: cs[..k][i] == cs[i];
    }
  }

  /** The last supplied condition of a kind is what the list ends up saying about it. */
  lemma {:induction false} LastSetWins(s: seq<Condition>, cs: seq<Condition>, c: Condition)
    requires UniqueKinds(s)
    ensures exists e :: EntryIs(SetAll(s, cs + [c]), c.kind, e) && SameCondition(e, c)
  {
    assert (cs + [c])[..|cs|] == cs;
    SetAllEffect(s, cs);
    var before := SetAll(s, cs);
    SetOneEffect(before, c);
    if old_ :| old_ in before && SameCondition(old_, c) {
      assert EntryIs(SetAll(s, cs + [c]), c.kind, old_);
    } else {
      assert EntryIs(SetAll(s, cs + [c]), c.kind, c) && SameCondition(c, c);
    }
  }

  // ---------------------------------------------------------------- recording the generation

  function Stamp(s: seq<Condition>, kind: string, generation: int): seq<Condition> {
    seq(|s|, i requires 0 <= i < |s| => if s[i].kind == kind then s[i].(generation := generation) else s[i])
  }

  /**
   SetConditionForGeneration on a list of unique kinds: the entry of the kind
   carries the generation; it keeps its transition time if it said the same.
   */
  lemma {:induction false} GenerationEffect(s: seq<Condition>, c: Condition, generation: int)
    requires UniqueKinds(s)
    ensures var t := Stamp(SetOne(s, c.(generation := generation)), c.kind, generation);
            && UniqueKinds(t)
            && (forall i | 0 <= i < |s| && s[i].kind != c.kind :: t[i] == s[i])
            && (forall old_ | old_ in s && SameCondition(old_, c) ::
                  EntryIs(t, c.kind, old_.(generation := generation)))
            && ((forall old_ | old_ in s :: !SameCondition(old_, c)) ==>
                  EntryIs(t, c.kind, c.(generation := generation)))
  {
    var c' := c.(generation := generation);
    var u := SetOne(s, c');
    SetOneEffect(s, c');
    forall e | EntryIs(u, c.kind, e)
      ensures EntryIs(Stamp(u, c.kind, generation), c.kind, e.(generation := generation))
    {
      StampEntry(u, c.kind, generation, e);
    }
    forall old_ | old_ in s && SameCondition(old_, c)
      ensures EntryIs(Stamp(u, c.kind, generation), c.kind, old_.(generation := generation))
    {
      assert SameCondition(old_, c') && EntryIs(u, c.kind, old_);
    }
    if forall old_ | old_ in s :: !SameCondition(old_, c) {
      assert EntryIs(u, c.kind, c');
    }
  }

  lemma {:induction false} StampEntry(u: seq<Condition>, kind: string, generation: int, e: Condition)
    requires EntryIs(u, kind, e)
    ensures EntryIs(Stamp(u, kind, generation), kind, e.(generation := generation))
  {
    var t := Stamp(u, kind, generation);
    var i :| 0 <= i < |u| && u[i] == e;
    assert t[i] == e.(generation := generation);
    forall d | d in t && d.kind == kind
      ensures d == e.(generation := generation)
    {
      var j :| 0 <= j < |t| && t[j] == d;
      assert u[j] in u && u[j].kind == kind;
    }
  }

  class ConditionedStatus {
    var conditions: seq<Condition>

    constructor (conditions: seq<Condition>)
      ensures this.conditions == conditions
    {
      this.conditions := conditions;
    }

    method SetConditions(cs: seq<Condition>)
      modifies this
      ensures conditions == SetAll(old(conditions), cs)
    {
      for k := 0 to |cs|
        invariant conditions == SetAll(old(conditions), cs[..k])
      {
        var c, found := cs[k], false;
        ghost var before := conditions;
        for i := 0 to |conditions|
          invariant |conditions| == |before|
          invariant found <==> exists j | 0 <= j < i :: before[j].kind == c.kind
          invariant forall j | 0 <= j < i :: conditions[j] == Replaced(before[j], c)
          invariant forall j | i <= j < |before| :: conditions[j] == before[j]
        {
          if conditions[i].kind != c.kind {
            continue;
          }
          found := true;
          if SameCondition(conditions[i], c) {
            continue;
          }
          conditions := conditions[i := c];
        }
        assert conditions == ReplaceAll(before, c);
        if !found {
          assert conditions == before;
          conditions := conditions + [c];
        }
        assert cs[..k + 1][..k] == cs[..k];
      }
      assert cs[..|cs|] == cs;
    }

    method SetConditionForGeneration(c: Condition, generation: int)
      modifies this
      ensures conditions == Stamp(SetOne(old(conditions), c.(generation := generation)), c.kind, generation)
    {
      var condition := c.(generation := generation);
      assert [condition][..0] == [];
      SetConditions([condition]);
      ghost var before := conditions;
      for i := 0 to |conditions|
        invariant |conditions| == |before|
        invariant forall j | 0 <= j < i :: conditions[j] == Stamp(before, c.kind, generation)[j]
        invariant forall j | i <= j < |before| :: conditions[j] == before[j]
      {
        if conditions[i].kind == c.kind {
          conditions := conditions[i := conditions[i].(generation := generation)];
        }
      }
    }
  }

  // ---------------------------------------------------------------- comparing

  datatype Said = Said(status: string, reason: string, message: string)

  /** A list of unique kinds as the map it stands for. */
  ghost function AsMap(s: seq<Condition>): map<string, Said>
    requires UniqueKinds(s)
  {
    map i | 0 <= i < |s| :: s[i].kind := Said(s[i].status, s[i].reason, s[i].message)
  }

  predicate KindLe(a: Condition, b: Condition) {
    StringLe(a.kind, b.kind)
  }

  function Kinds(s: seq<Condition>): seq<string> {
    seq(|s|, i requires 0 <= i < |s| => s[i].kind)
  }

  lemma {:induction false} KindOrder()
    ensures TotalPreorder(KindLe)
  {
    StringOrder();
  }

  /** What sorting a list by kind may give: the order of conditions of one kind is open. */
  ghost predicate Arranges(t: seq<Condition>, s: seq<Condition>) {
    multiset(t) == multiset(s) && Sorted(KindLe, t)
  }

  lemma {:induction false} SortArranges(s: seq<Condition>)
    ensures Arranges(Sort(KindLe, s), s)
  {
    KindOrder();
    SortSorts(KindLe, s);
  }

  /** `sort.Slice` by kind, of which callers know no more than that. */
  method SortSlice(s: seq<Condition>) returns (t: seq<Condition>)
    ensures Arranges(t, s)
  {
    SortArranges(s);
    t := Sort(KindLe, s);
  }

  lemma {:induction false} ArrangedSize(t: seq<Condition>, s: seq<Condition>)
    requires Arranges(t, s)
    ensures |t| == |s| && forall c :: c in t <==> c in s
  {
    assert |multiset(t)| == |multiset(s)|;
    forall c
      ensures c in t <==> c in s
    {
      assert c in multiset(t) <==> c in multiset(s);
    }
  }

  /** Sorting a list of unique kinds keeps its map and lists the kinds in ascending order. */
  lemma {:induction false} ArrangedByKind(t: seq<Condition>, s: seq<Condition>)
    requires UniqueKinds(s) && Arranges(t, s)
    ensures UniqueKinds(t) && AsMap(t) == AsMap(s) && Ascending(StringLe, Kinds(t))
  {
    KindOrder();
    forall i, j | 0 <= i < j < |s|
      ensures !(KindLe(s[i], s[j]) && KindLe(s[j], s[i]))
    {
      StringLeTotal(s[i].kind, s[j].kind);
    }
    SortedApartAscends(KindLe, s, t);
    assert forall i, j | 0 <= i < j < |t| :: KindLe(t[i], t[j]) && !KindLe(t[j], t[i]);
    ArrangedSize(t, s);
    SameMembersSameMap(s, t);
  }

  lemma {:induction false} SameMembersSameMap(s: seq<Condition>, t: seq<Condition>)
    requires UniqueKinds(s) && UniqueKinds(t) && forall c :: c in s <==> c in t
    ensures AsMap(s) == AsMap(t)
  {
    MapHasMembers(s);
    MapHasMembers(t);
    forall k
      ensures k in AsMap(s) <==> k in AsMap(t)
      ensures k in AsMap(s) ==> AsMap(s)[k] == AsMap(t)[k]
    {
      if k in AsMap(s) {
        var c :| c in s && c.kind == k && Said(c.status, c.reason, c.message) == AsMap(s)[k];
        assert c in t;
      }
      if k in AsMap(t) {
        var c :| c in t && c.kind == k;
        assert c in s;
      }
    }
  }

  lemma {:induction false} MapHasMembers(s: seq<Condition>)
    requires UniqueKinds(s)
    ensures forall c | c in s :: c.kind in AsMap(s) && AsMap(s)[c.kind] == Said(c.status, c.reason, c.message)
    ensures forall k | k in AsMap(s) ::
              exists c :: c in s && c.kind == k && Said(c.status, c.reason, c.message) == AsMap(s)[k]
  {
    forall k | k in AsMap(s)
      ensures exists c :: c in s && c.kind == k && Said(c.status, c.reason, c.message) == AsMap(s)[k]
    {
      var i :| 0 <= i < |s| && s[i].kind == k;
      assert s[i] in s;
    }
  }

  /** Lists of ascending kinds say the same entry by entry exactly if their maps are equal. */
  lemma {:induction false} PairwiseIffMaps(s: seq<Condition>, t: seq<Condition>)
    requires UniqueKinds(s) && UniqueKinds(t)
    requires Ascending(StringLe, Kinds(s)) && Ascending(StringLe, Kinds(t))
    ensures |s| == |t| && (forall i | 0 <= i < |s| :: SameCondition(s[i], t[i])) <==> AsMap(s) == AsMap(t)
  {
    MapHasMembers(s);
    MapHasMembers(t);
    if AsMap(s) == AsMap(t) {
      forall k
        ensures k in Kinds(s) <==> k in Kinds(t)
      {
        KindsAreKeys(s, k);
        KindsAreKeys(t, k);
      }
      StringOrder();
      AscendingUnique(StringLe, Kinds(s), Kinds(t));
      forall i | 0 <= i < |s|
        ensures SameCondition(s[i], t[i])
      {
        assert Kinds(s)[i] == Kinds(t)[i];
        assert s[i] in s && t[i] in t;
      }
    } else if |s| == |t| && forall i | 0 <= i < |s| :: SameCondition(s[i], t[i]) {
      PairwiseMaps(s, t);
    }
  }

  lemma {:induction false} KindsAreKeys(s: seq<Condition>, k: string)
    requires UniqueKinds(s)
    ensures k in Kinds(s) <==> k in AsMap(s)
  {
    if k in AsMap(s) {
      var i :| 0 <= i < |s| && s[i].kind == k;
      assert Kinds(s)[i] == k;
    }
  }

  lemma {:induction false} PairwiseMaps(s: seq<Condition>, t: seq<Condition>)
    requires UniqueKinds(s) && UniqueKinds(t)
    requires |s| == |t| && forall i | 0 <= i < |s| :: SameCondition(s[i], t[i])
    ensures AsMap(s) == AsMap(t)
  {
    assert forall i | 0 <= i < |s| :: s[i].kind == t[i].kind;
    forall k | k in AsMap(s)
      ensures k in AsMap(t) && AsMap(s)[k] == AsMap(t)[k]
    {
      var i :| 0 <= i < |s| && s[i].kind == k;
      assert t[i].kind == k;
    }
    forall k | k in AsMap(t)
      ensures k in AsMap(s)
    {
      var i :| 0 <= i < |t| && t[i].kind == k;
      assert s[i].kind == k;
    }
  }

  // ---------------------------------------------------------------- lists that repeat a kind

  datatype Told = Told(kind: string, said: Said)

  function Tell(c: Condition): Told {
    Told(c.kind, Said(c.status, c.reason, c.message))
  }

  function Telling(s: seq<Condition>): seq<Told> {
    seq(|s|, i requires 0 <= i < |s| => Tell(s[i]))
  }

  /** Conditions of one kind say the same. */
  predicate Consistent(s: seq<Condition>) {
    forall i, j | 0 <= i < j < |s| && s[i].kind == s[j].kind :: SameCondition(s[i], s[j])
  }

  predicate ToldLe(a: Told, b: Told) {
    StringLe(a.kind, b.kind)
  }

  // ---------------------------------------------------------------- which answers are possible

  ghost predicate Agree(a: seq<Condition>, b: seq<Condition>) {
    |a| == |b| && forall i | 0 <= i < |a| :: SameCondition(a[i], b[i])
  }

  /** Some arrangements of the two lists make the comparison give this answer. */
  ghost predicate CanAnswer(s: seq<Condition>, t: seq<Condition>, answer: bool) {
    exists a, b :: Arranges(a, s) && Arranges(b, t) && Agree(a, b) == answer
  }

  lemma {:induction false} AgreeIsTelling(a: seq<Condition>, b: seq<Condition>)
    ensures Agree(a, b) <==> Telling(a) == Telling(b)
  {
    assert |Telling(a)| == |a| && |Telling(b)| == |b|;
    if Telling(a) == Telling(b) {
      forall i | 0 <= i < |a|
        ensures SameCondition(a[i], b[i])
      {
        assert Telling(a)[i] == Telling(b)[i];
      }
    }
  }

  function Dropped(s: seq<Condition>, i: nat): seq<Condition>
    requires i < |s|
  {
    s[..i] + s[i + 1..]
  }

  lemma {:induction false} DroppedOne(s: seq<Condition>, i: nat)
    requires i < |s|
    ensures s[i] in multiset(s) && multiset(Dropped(s, i)) == multiset(s) - multiset{s[i]}
  {
    assert s == s[..i] + [s[i]] + s[i + 1..];
  }

  lemma {:induction false} DroppedTelling(s: seq<Condition>, i: nat)
    requires i < |s|
    ensures Tell(s[i]) in multiset(Telling(s))
    ensures multiset(Telling(Dropped(s, i))) == multiset(Telling(s)) - multiset{Tell(s[i])}
  {
    assert Telling(s) == Telling(s[..i]) + [Tell(s[i])] + Telling(s[i + 1..]);
    assert Telling(Dropped(s, i)) == Telling(s[..i]) + Telling(s[i + 1..]);
  }

  lemma {:induction false} PlaceOf<T>(s: seq<T>, x: T) returns (i: nat)
    requires x in multiset(s)
    ensures i < |s| && s[i] == x
  {
    i :| 0 <= i < |s| && s[i] == x;
  }

  /** Permuted lists say the same, each thing as often. */
  lemma {:induction false} PermutedTelling(s: seq<Condition>, t: seq<Condition>)
    requires multiset(s) == multiset(t)
    ensures multiset(Telling(s)) == multiset(Telling(t))
    decreases |s|
  {
    assert |multiset(s)| == |multiset(t)|;
    if s != [] {
      var i := PlaceOf(t, s[0]);
      DroppedOne(s, 0);
      DroppedOne(t, i);
      PermutedTelling(Dropped(s, 0), Dropped(t, i));
      DroppedTelling(s, 0);
      DroppedTelling(t, i);
      SameButOne(multiset(Telling(s)), multiset(Telling(t)), Tell(s[0]));
    }
  }

  /** A list can be rearranged to say the same things in any order. */
  lemma {:induction false} Rearranged(t: seq<Condition>, told: seq<Told>) returns (b: seq<Condition>)
    requires multiset(Telling(t)) == multiset(told)
    ensures multiset(b) == multiset(t) && Telling(b) == told
    decreases |told|
  {
    assert |multiset(Telling(t))| == |multiset(told)|;
    if told == [] {
      b := [];
    } else {
      var i := PlaceOf(Telling(t), told[0]);
      TailMultiset(told);
      DroppedTelling(t, i);
      var rest := Rearranged(Dropped(t, i), told[1..]);
      b := [t[i]] + rest;
      Reattached(t, i, told, rest);
    }
  }

  lemma {:induction false} Reattached(t: seq<Condition>, i: nat, told: seq<Told>, rest: seq<Condition>)
    requires i < |t| && told != [] && Tell(t[i]) == told[0]
    requires multiset(rest) == multiset(Dropped(t, i)) && Telling(rest) == told[1..]
    ensures multiset([t[i]] + rest) == multiset(t) && Telling([t[i]] + rest) == told
  {
    DroppedOne(t, i);
    assert Telling([t[i]] + rest) == [Tell(t[i])] + Telling(rest);
    assert told == [told[0]] + told[1..];
  }

  lemma {:induction false} SortedByTelling(a: seq<Condition>, b: seq<Condition>)
    requires Sorted(KindLe, a) && Telling(a) == Telling(b)
    ensures Sorted(KindLe, b)
  {
    AgreeIsTelling(a, b);
    assert forall i | 0 <= i < |a| :: a[i].kind == b[i].kind;
    forall i, j | 0 <= i < j < |b|
      ensures KindLe(b[i], b[j])
    {
      assert KindLe(a[i], a[j]);
    }
  }

  lemma {:induction false} ToldOrder()
    ensures TotalPreorder(ToldLe)
  {
    StringOrder();
  }

  lemma {:induction false} SortedTelling(a: seq<Condition>)
    requires Sorted(KindLe, a)
    ensures Sorted(ToldLe, Telling(a))
  {
    assert forall i, j | 0 <= i < j < |a| :: KindLe(a[i], a[j]);
  }

  lemma {:induction false} SettledTelling(s: seq<Condition>, told: seq<Told>)
    requires Consistent(s) && multiset(told) == multiset(Telling(s))
    ensures Settled(ToldLe, told)
  {
    forall x, y | x in told && y in told && ToldLe(x, y) && ToldLe(y, x)
      ensures x == y
    {
      assert x in multiset(Telling(s)) && y in multiset(Telling(s));
      var i, j :| 0 <= i < |s| && 0 <= j < |s| && Telling(s)[i] == x && Telling(s)[j] == y;
      StringLeTotal(x.kind, y.kind);
      assert s[i].kind == s[j].kind;
    }
  }

  /** Arrangements of a consistent list and of one that says the same agree. */
  lemma {:induction false} ConsistentAgree(s: seq<Condition>, a: seq<Condition>, b: seq<Condition>)
    requires Consistent(s) && multiset(Telling(a)) == multiset(Telling(s)) == multiset(Telling(b))
    requires Sorted(KindLe, a) && Sorted(KindLe, b)
    ensures Agree(a, b)
  {
    ToldOrder();
    SortedTelling(a);
    SortedTelling(b);
    SettledTelling(s, Telling(a));
    SortedUnique(ToldLe, Telling(a), Telling(b));
    AgreeIsTelling(a, b);
  }

  function Swapped(a: seq<Condition>, p: nat, q: nat): seq<Condition>
    requires p < q < |a|
  {
    a[p := a[q]][q := a[p]]
  }

  lemma {:induction false} SwappedArranges(a: seq<Condition>, s: seq<Condition>, p: nat, q: nat)
    requires Arranges(a, s) && p < q < |a| && a[p].kind == a[q].kind
    ensures Arranges(Swapped(a, p, q), s)
  {
    var b := Swapped(a, p, q);
    assert forall k | 0 <= k < |a| :: b[k].kind == a[k].kind;
    forall x, y | 0 <= x < y < |b|
      ensures KindLe(b[x], b[y])
    {
      assert KindLe(a[x], a[y]);
    }
  }

  /** Where a permutation of an inconsistent list has two differing conditions of one kind. */
  lemma {:induction false} ConflictPlaces(s: seq<Condition>, a: seq<Condition>) returns (p: nat, q: nat)
    requires !Consistent(s) && multiset(s) == multiset(a)
    ensures p < q < |a| && a[p].kind == a[q].kind && !SameCondition(a[p], a[q])
  {
    var i, j :| 0 <= i < j < |s| && s[i].kind == s[j].kind && !SameCondition(s[i], s[j]);
    p, q := SamePlaces(s, a, i, j);
    assert s[i] in {a[p], a[q]} && s[j] in {a[p], a[q]};
  }

  /** Exchanging two differing conditions of one kind gives another arrangement. */
  lemma {:induction false} InconsistentDisagree(s: seq<Condition>) returns (a: seq<Condition>, b: seq<Condition>)
    requires !Consistent(s)
    ensures Arranges(a, s) && Arranges(b, s) && !Agree(a, b)
  {
    SortArranges(s);
    a := Sort(KindLe, s);
    var p, q := ConflictPlaces(s, a);
    b := Swapped(a, p, q);
    SwappedArranges(a, s, p, q);
    assert !SameCondition(a[p], b[p]);
  }

  /** All arrangements of a list agree exactly if its conditions of one kind say the same. */
  lemma {:induction false} ArrangementsAgreeIff(s: seq<Condition>)
    ensures (forall a, b | Arranges(a, s) && Arranges(b, s) :: Agree(a, b)) <==> Consistent(s)
  {
    if Consistent(s) {
      forall a, b | Arranges(a, s) && Arranges(b, s)
        ensures Agree(a, b)
      {
        PermutedTelling(a, s);
        PermutedTelling(b, s);
        ConsistentAgree(s, a, b);
      }
    } else {
      var a, b := InconsistentDisagree(s);
    }
  }

  /** Two lists can compare equal exactly if they say the same, each thing as often. */
  lemma {:induction false} CanBeEqualIff(s: seq<Condition>, t: seq<Condition>)
    ensures CanAnswer(s, t, true) <==> multiset(Telling(s)) == multiset(Telling(t))
  {
    if CanAnswer(s, t, true) {
      var a, b :| Arranges(a, s) && Arranges(b, t) && Agree(a, b) == true;
      PermutedTelling(a, s);
      PermutedTelling(b, t);
      AgreeIsTelling(a, b);
    }
    if multiset(Telling(s)) == multiset(Telling(t)) {
      SortArranges(s);
      var a := Sort(KindLe, s);
      PermutedTelling(a, s);
      var b := Rearranged(t, Telling(a));
      SortedByTelling(a, b);
      AgreeIsTelling(a, b);
      assert Arranges(a, s) && Arranges(b, t) && Agree(a, b) == true;
    }
  }

  /** Two lists can compare unequal exactly unless they say the same and conditions of one kind do, too. */
  lemma {:induction false} CanBeUnequalIff(s: seq<Condition>, t: seq<Condition>)
    ensures CanAnswer(s, t, false) <==> !(Consistent(s) && multiset(Telling(s)) == multiset(Telling(t)))
  {
    if Consistent(s) && multiset(Telling(s)) == multiset(Telling(t)) {
      forall a, b | Arranges(a, s) && Arranges(b, t)
        ensures Agree(a, b)
      {
        PermutedTelling(a, s);
        PermutedTelling(b, t);
        ConsistentAgree(s, a, b);
      }
    } else if Consistent(s) {
      SortArranges(s);
      SortArranges(t);
      var a, b := Sort(KindLe, s), Sort(KindLe, t);
      CanBeEqualIff(s, t);
      assert Arranges(a, s) && Arranges(b, t) && Agree(a, b) == false;
    } else {
      var a, a' := InconsistentDisagree(s);
      SortArranges(t);
      var b := Sort(KindLe, t);
      AgreeIsTelling(a, b);
      AgreeIsTelling(a', b);
      AgreeIsTelling(a, a');
      assert Arranges(a, s) && Arranges(a', s) && Arranges(b, t);
      assert Agree(a, b) == false || Agree(a', b) == false;
    }
  }

  /** A list whose conditions of one kind differ may even compare unequal to itself. */
  lemma {:induction false} InconsistentIsUnequal(s: seq<Condition>)
    requires !Consistent(s)
    ensures CanAnswer(s, s, true) && CanAnswer(s, s, false)
  {
    CanBeEqualIff(s, s);
    CanBeUnequalIff(s, s);
  }

  lemma {:induction false} UniqueAnswer(s: seq<Condition>, t: seq<Condition>, a: seq<Condition>, b: seq<Condition>)
    requires Arranges(a, s) && Arranges(b, t)
    ensures UniqueKinds(s) && UniqueKinds(t) ==> (Agree(a, b) <==> AsMap(s) == AsMap(t))
  {
    if UniqueKinds(s) && UniqueKinds(t) {
      ArrangedByKind(a, s);
      ArrangedByKind(b, t);
      PairwiseIffMaps(a, b);
    }
  }

  /**
   An answer that some arrangement gives; if conditions of one kind say the
   same, whether the lists say the same, each thing as often; and for unique
   kinds whether their maps are equal.
   */
  ghost predicate RightAnswer(s: seq<Condition>, t: seq<Condition>, answer: bool) {
    && CanAnswer(s, t, answer)
    && (Consistent(s) ==> (answer <==> multiset(Telling(s)) == multiset(Telling(t))))
    && (UniqueKinds(s) && UniqueKinds(t) ==> (answer <==> AsMap(s) == AsMap(t)))
  }

  lemma {:induction false} Answered(s: seq<Condition>, t: seq<Condition>, a: seq<Condition>, b: seq<Condition>)
    requires Arranges(a, s) && Arranges(b, t)
    ensures RightAnswer(s, t, Agree(a, b))
  {
    assert CanAnswer(s, t, Agree(a, b));
    CanBeEqualIff(s, t);
    CanBeUnequalIff(s, t);
    UniqueAnswer(s, t, a, b);
  }

  lemma {:induction false} UnequalSizes(s: seq<Condition>, t: seq<Condition>)
    requires |s| != |t|
    ensures RightAnswer(s, t, false)
  {
    SortArranges(s);
    SortArranges(t);
    var a, b := Sort(KindLe, s), Sort(KindLe, t);
    ArrangedSize(a, s);
    ArrangedSize(b, t);
    Answered(s, t, a, b);
  }

  /**
   Equal: both nil, or neither; then sorted copies are compared entry by entry,
   whatever the sort makes of conditions of one kind.
   */
  method Equal(s: Option<seq<Condition>>, other: Option<seq<Condition>>) returns (equal: bool)
    ensures s.None? || other.None? ==> equal == (s.None? && other.None?)
    ensures s.Some? && other.Some? ==> RightAnswer(s.value, other.value, equal)
  {
    if s.None? || other.None? {
      return s.None? && other.None?;
    }
    if |other.value| != |s.value| {
      UnequalSizes(s.value, other.value);
      return false;
    }
    var sc := SortSlice(s.value);
    var oc := SortSlice(other.value);
    ArrangedSize(sc, s.value);
    ArrangedSize(oc, other.value);
    Answered(s.value, other.value, sc, oc);
    for i := 0 to |sc|
      invariant forall j | 0 <= j < i :: SameCondition(sc[j], oc[j])
    {
      if !SameCondition(sc[i], oc[i]) {
        assert !Agree(sc, oc);
        return false;
      }
    }
    assert Agree(sc, oc);
    return true;
  }
}
