/**
 The ordering vocabulary shared by the models: what the Go standard library's
 `slices.Sort` and `slices.Compact` return, and why a sorted list without
 repetition is determined by its elements alone.
 */
module Ordering {

  ghost predicate TotalPreorder<T(!new)>(le: (T, T) -> bool) {
    && (forall a, b :: le(a, b) || le(b, a))
    && (forall a, b, c :: le(a, b) && le(b, c) ==> le(a, c))
  }

  ghost predicate TotalOrder<T(!new)>(le: (T, T) -> bool) {
    && TotalPreorder(le)
    && (forall a, b :: le(a, b) && le(b, a) ==> a == b)
  }

  ghost predicate Sorted<T>(le: (T, T) -> bool, s: seq<T>) {
    forall i, j | 0 <= i < j < |s| :: le(s[i], s[j])
  }

  /** Sorted, and no element is repeated or even equivalent to another one. */
  ghost predicate Ascending<T>(le: (T, T) -> bool, s: seq<T>) {
    forall i, j | 0 <= i < j < |s| :: le(s[i], s[j]) && !le(s[j], s[i])
  }

  function Elements<T>(s: seq<T>): set<T> {
    set x | x in s
  }

  function Insert<T>(le: (T, T) -> bool, x: T, s: seq<T>): seq<T> {
    if s == [] || le(x, s[0]) then [x] + s else [s[0]] + Insert(le, x, s[1..])
  }

  /** `slices.Sort`, and `slices.SortFunc` for an order of distinct keys. */
  function Sort<T>(le: (T, T) -> bool, s: seq<T>): seq<T> {
    if s == [] then [] else Insert(le, s[0], Sort(le, s[1..]))
  }

  /** `slices.Compact`: keeps the first element of every run of equal ones. */
  function Compact<T(==)>(s: seq<T>): seq<T> {
    if |s| < 2 then s
    else if s[0] == s[1] then Compact(s[1..])
    else [s[0]] + Compact(s[1..])
  }

  function SortCompact<T(==)>(le: (T, T) -> bool, s: seq<T>): seq<T> {
    Compact(Sort(le, s))
  }

  lemma {:induction false} InsertAbove<T(!new)>(le: (T, T) -> bool, low: T, x: T, s: seq<T>)
    requires le(low, x) && forall i | 0 <= i < |s| :: le(low, s[i])
    ensures forall i | 0 <= i < |Insert(le, x, s)| :: le(low, Insert(le, x, s)[i])
    decreases |s|
  {
    if s != [] && !le(x, s[0]) {
      InsertAbove(le, low, x, s[1..]);
    }
  }

  lemma {:induction false} InsertSorted<T(!new)>(le: (T, T) -> bool, x: T, s: seq<T>)
    requires TotalPreorder(le) && Sorted(le, s)
    ensures Sorted(le, Insert(le, x, s))
    decreases |s|
  {
    if s != [] && !le(x, s[0]) {
      InsertSorted(le, x, s[1..]);
      InsertAbove(le, s[0], x, s[1..]);
    }
  }

  lemma {:induction false} InsertMembers<T(!new)>(le: (T, T) -> bool, x: T, s: seq<T>)
    ensures forall y :: y in Insert(le, x, s) <==> y == x || y in s
    decreases |s|
  {
    if s != [] {
      assert s == [s[0]] + s[1..];
      InsertMembers(le, x, s[1..]);
    }
  }

  lemma {:induction false} InsertPermutes<T>(le: (T, T) -> bool, x: T, s: seq<T>)
    ensures multiset(Insert(le, x, s)) == multiset(s) + multiset{x}
    decreases |s|
  {
    if s != [] && !le(x, s[0]) {
      InsertPermutes(le, x, s[1..]);
      assert s == [s[0]] + s[1..];
    }
  }

  lemma {:induction false} SortSorts<T(!new)>(le: (T, T) -> bool, s: seq<T>)
    requires TotalPreorder(le)
    ensures Sorted(le, Sort(le, s))
    ensures multiset(Sort(le, s)) == multiset(s)
  {
    if s != [] {
      SortSorts(le, s[1..]);
      InsertSorted(le, s[0], Sort(le, s[1..]));
      InsertPermutes(le, s[0], Sort(le, s[1..]));
      assert s == [s[0]] + s[1..];
    }
  }

  lemma {:induction false} CompactAscends<T(!new)>(le: (T, T) -> bool, s: seq<T>)
    requires TotalOrder(le) && Sorted(le, s)
    ensures Ascending(le, Compact(s))
    ensures forall x :: x in Compact(s) <==> x in s
    ensures s != [] ==> Compact(s) != [] && Compact(s)[0] == s[0]
  {
    if |s| >= 2 {
      CompactAscends(le, s[1..]);
      assert s == [s[0]] + s[1..];
      var t := Compact(s[1..]);
      if s[0] != s[1] {
        forall j | 0 <= j < |t|
          ensures le(s[0], t[j]) && !le(t[j], s[0])
        {
          assert t[j] in s[1..];
          assert le(s[1], t[j]);
        }
      }
    }
  }

  /** No two elements are equivalent. */
  ghost predicate Apart<T>(le: (T, T) -> bool, s: seq<T>) {
    forall i, j | 0 <= i < j < |s| :: !(le(s[i], s[j]) && le(s[j], s[i]))
  }

  /** Sorting elements of which no two are equivalent needs no compaction. */
  lemma {:induction false} SortAscends<T(!new)>(le: (T, T) -> bool, s: seq<T>)
    requires TotalPreorder(le) && Apart(le, s)
    ensures Ascending(le, Sort(le, s))
    ensures forall x :: x in Sort(le, s) <==> x in s
  {
    SortSorts(le, s);
    forall x
      ensures x in Sort(le, s) <==> x in s
    {
      assert x in multiset(Sort(le, s)) <==> x in multiset(s);
    }
    if s != [] {
      SortAscends(le, s[1..]);
      assert s == [s[0]] + s[1..];
      InsertAscends(le, s[0], Sort(le, s[1..]));
    }
  }

  lemma {:induction false} InsertAscends<T(!new)>(le: (T, T) -> bool, x: T, s: seq<T>)
    requires TotalPreorder(le) && Ascending(le, s)
    requires forall y | y in s :: !(le(x, y) && le(y, x))
    ensures Ascending(le, Insert(le, x, s))
  {
    if s != [] && !le(x, s[0]) {
      InsertAscends(le, x, s[1..]);
      InsertMembers(le, x, s[1..]);
      var t := Insert(le, x, s[1..]);
      forall i | 0 <= i < |t|
        ensures le(s[0], t[i]) && !le(t[i], s[0])
      {
        assert t[i] in t;
      }
    }
  }

  lemma {:induction false} TwoOccurrences<T(!new)>(s: seq<T>, x: T)
    requires multiset(s)[x] >= 2
    ensures exists i, j | 0 <= i < j < |s| :: s[i] == x && s[j] == x
  {
    var k := |s| - 1;
    assert s == s[..k] + [s[k]];
    if s[k] == x {
      assert x in multiset(s[..k]);
      var i :| 0 <= i < k && s[..k][i] == x;
      assert s[i] == x && s[k] == x;
    } else {
      TwoOccurrences(s[..k], x);
      var i, j :| 0 <= i < j < k && s[..k][i] == x && s[..k][j] == x;
      assert s[i] == x && s[j] == x;
    }
  }

  /** Two places of a list have two places in any permutation of it. */
  lemma {:induction false} SamePlaces<T(!new)>(s: seq<T>, t: seq<T>, i: nat, j: nat) returns (x: nat, y: nat)
    requires multiset(s) == multiset(t) && i < j < |s|
    ensures x < y < |t| && {t[x], t[y]} == {s[i], s[j]}
  {
    if s[i] == s[j] {
      assert s == s[..j] + [s[j]] + s[j + 1..] && s[..j][i] == s[i];
      assert s[i] in multiset(s[..j]);
      assert multiset(s)[s[i]] >= 2;
      TwoOccurrences(t, s[i]);
      x, y :| 0 <= x < y < |t| && t[x] == s[i] && t[y] == s[i];
    } else {
      assert s[i] in multiset(t) && s[j] in multiset(t);
      var v, w :| 0 <= v < |t| && 0 <= w < |t| && t[v] == s[i] && t[w] == s[j];
      if v < w {
        x, y := v, w;
      } else {
        x, y := w, v;
      }
    }
  }

  /** Any sorted arrangement of elements of which no two are equivalent is ascending. */
  lemma {:induction false} SortedApartAscends<T(!new)>(le: (T, T) -> bool, a: seq<T>, b: seq<T>)
    requires TotalPreorder(le) && Apart(le, a) && Sorted(le, b) && multiset(a) == multiset(b)
    ensures Ascending(le, b)
  {
    forall i, j | 0 <= i < j < |b|
      ensures le(b[i], b[j]) && !le(b[j], b[i])
    {
      if b[i] == b[j] {
        assert b == b[..j] + b[j..] && b[i] in b[..j] && b[j] in b[j..];
        assert multiset(b)[b[i]] >= 2;
        TwoOccurrences(a, b[i]);
      } else {
        assert b[i] in multiset(a) && b[j] in multiset(a);
        var p, q :| 0 <= p < |a| && 0 <= q < |a| && a[p] == b[i] && a[q] == b[j];
        assert p != q;
      }
    }
  }

  /** Sorting and compacting lists every element once, in order. */
  lemma {:induction false} SortCompactLists<T(!new)>(le: (T, T) -> bool, s: seq<T>)
    requires TotalOrder(le)
    ensures Ascending(le, SortCompact(le, s))
    ensures forall x :: x in SortCompact(le, s) <==> x in s
  {
    SortSorts(le, s);
    CompactAscends(le, Sort(le, s));
    forall x
      ensures x in Sort(le, s) <==> x in s
    {
      assert x in multiset(Sort(le, s)) <==> x in multiset(s);
    }
  }

  lemma {:induction false} SortedHead<T(!new)>(le: (T, T) -> bool, s: seq<T>, x: T)
    requires TotalPreorder(le) && Sorted(le, s) && x in multiset(s)
    ensures s != [] && le(s[0], x)
  {
    var i :| 0 <= i < |s| && s[i] == x;
  }

  /** Elements of the list that the order does not tell apart are equal. */
  ghost predicate Settled<T>(le: (T, T) -> bool, s: seq<T>) {
    forall x, y | x in s && y in s && le(x, y) && le(y, x) :: x == y
  }

  lemma {:induction false} SameButOne<T(!new)>(a: multiset<T>, b: multiset<T>, x: T)
    requires x in a && x in b && a - multiset{x} == b - multiset{x}
    ensures a == b
  {
    assert a == (a - multiset{x}) + multiset{x};
    assert b == (b - multiset{x}) + multiset{x};
  }

  lemma {:induction false} SameHead<T(!new)>(le: (T, T) -> bool, a: seq<T>, b: seq<T>)
    requires TotalPreorder(le) && Settled(le, a) && Sorted(le, a) && Sorted(le, b) && multiset(a) == multiset(b)
    requires a != [] && b != []
    ensures a[0] == b[0]
  {
    assert a[0] in multiset(b) && b[0] in multiset(a);
    SortedHead(le, b, a[0]);
    SortedHead(le, a, b[0]);
  }

  lemma {:induction false} TailMultiset<T>(s: seq<T>)
    requires s != []
    ensures multiset(s[1..]) == multiset(s) - multiset{s[0]}
  {
    assert s == [s[0]] + s[1..];
  }

  /** Only one arrangement of such a list is sorted. */
  lemma {:induction false} SortedUnique<T(!new)>(le: (T, T) -> bool, a: seq<T>, b: seq<T>)
    requires TotalPreorder(le) && Settled(le, a) && Sorted(le, a) && Sorted(le, b) && multiset(a) == multiset(b)
    ensures a == b
    decreases |a|
  {
    assert |multiset(a)| == |multiset(b)|;
    if a != [] {
      SameHead(le, a, b);
      TailMultiset(a);
      TailMultiset(b);
      SortedUnique(le, a[1..], b[1..]);
      assert a == [a[0]] + a[1..] && b == [b[0]] + b[1..];
    }
  }

  /** Two ascending lists of the same elements are the same list. */
  lemma {:induction false} AscendingUnique<T(!new)>(le: (T, T) -> bool, a: seq<T>, b: seq<T>)
    requires TotalPreorder(le)
    requires Ascending(le, a) && Ascending(le, b)
    requires forall x :: x in a <==> x in b
    ensures a == b
  {
    if b != [] {
      assert b[0] in a;
    }
    if a != [] {
      assert a[0] in b;
      assert a[0] == b[0];
      assert a == [a[0]] + a[1..] && b == [b[0]] + b[1..];
      forall x
        ensures x in a[1..] <==> x in b[1..]
      {
        TailMembers(le, a, x);
        TailMembers(le, b, x);
      }
      AscendingUnique(le, a[1..], b[1..]);
    }
  }

  lemma {:induction false} TailMembers<T(!new)>(le: (T, T) -> bool, a: seq<T>, x: T)
    requires TotalPreorder(le) && Ascending(le, a) && a != []
    ensures x in a[1..] <==> x in a && x != a[0]
  {
    assert a == [a[0]] + a[1..];
    if x in a[1..] {
      var i :| 0 <= i < |a[1..]| && a[1..][i] == x;
      assert a[i + 1] == x;
    }
  }

  lemma {:induction false} SortCompactUnique<T(!new)>(le: (T, T) -> bool, s: seq<T>, a: seq<T>)
    requires TotalOrder(le) && Ascending(le, a)
    requires forall x :: x in a <==> x in s
    ensures SortCompact(le, s) == a
  {
    SortCompactLists(le, s);
    AscendingUnique(le, SortCompact(le, s), a);
  }

  /** The order of Go strings: UTF-8 bytes compare like the characters they encode. */
  predicate StringLe(a: string, b: string) {
    a == [] || (b != [] && (a[0] < b[0] || (a[0] == b[0] && StringLe(a[1..], b[1..]))))
  }

  /** Byte order spelled out: a is a prefix of b, or the smaller one where they first differ. */
  lemma {:induction false} StringLeIff(a: string, b: string)
    ensures StringLe(a, b) <==>
            exists k | 0 <= k <= |a| && k <= |b| :: a[..k] == b[..k] && (k == |a| || (k < |b| && a[k] < b[k]))
    decreases |a|
  {
    if a == "" {
      assert a[..0] == b[..0];
    } else if b == "" {
    } else if a[0] != b[0] {
      assert a[..0] == b[..0];
      forall k | 0 < k <= |a| && k <= |b|
        ensures a[..k] != b[..k]
      {
        assert a[..k][0] == a[0] && b[..k][0] == b[0];
      }
    } else {
      StringLeIff(a[1..], b[1..]);
      if StringLe(a, b) {
        var k :| 0 <= k <= |a[1..]| && k <= |b[1..]| && a[1..][..k] == b[1..][..k]
                 && (k == |a[1..]| || (k < |b[1..]| && a[1..][k] < b[1..][k]));
        assert a[..k + 1] == [a[0]] + a[1..][..k] && b[..k + 1] == [b[0]] + b[1..][..k];
      }
      if k :| 0 <= k <= |a| && k <= |b| && a[..k] == b[..k] && (k == |a| || (k < |b| && a[k] < b[k])) {
        assert a[1..][..k - 1] == a[..k][1..] && b[1..][..k - 1] == b[..k][1..];
      }
    }
  }

  lemma {:induction false} StringLeTotal(a: string, b: string)
    ensures StringLe(a, b) || StringLe(b, a)
    ensures StringLe(a, b) && StringLe(b, a) ==> a == b
  {
    if a != [] && b != [] && a[0] == b[0] {
      StringLeTotal(a[1..], b[1..]);
      assert a == [a[0]] + a[1..] && b == [b[0]] + b[1..];
    }
  }

  lemma {:induction false} StringLeTransitive(a: string, b: string, c: string)
    requires StringLe(a, b) && StringLe(b, c)
    ensures StringLe(a, c)
  {
    if a != [] && a[0] == b[0] == c[0] {
      StringLeTransitive(a[1..], b[1..], c[1..]);
    }
  }

  lemma {:induction false} StringOrder()
    ensures TotalOrder(StringLe)
  {
    forall a, b
      ensures StringLe(a, b) || StringLe(b, a)
      ensures StringLe(a, b) && StringLe(b, a) ==> a == b
    {
      StringLeTotal(a, b);
    }
    forall a, b, c | StringLe(a, b) && StringLe(b, c)
      ensures StringLe(a, c)
    {
      StringLeTransitive(a, b, c);
    }
  }

  /** The one ascending list of a set of strings. */
  ghost function SortedList(s: set<string>): (r: seq<string>)
    ensures Ascending(StringLe, r)
    ensures forall x :: x in r <==> x in s
  {
    if s == {} then []
    else
      var x :| x in s;
      var rest := SortedList(s - {x});
      StringOrder();
      InsertAscends(StringLe, x, rest);
      InsertMembers(StringLe, x, rest);
      Insert(StringLe, x, rest)
  }

  /** The keys that are no longer in `rest`, each once. */
  ghost predicate Collected(keys: set<string>, rest: set<string>, collected: seq<string>) {
    && rest <= keys
    && (forall x :: x in collected <==> x in keys - rest)
    && forall i, j | 0 <= i < j < |collected| :: collected[i] != collected[j]
  }

  lemma {:induction false} CollectedNext(keys: set<string>, rest: set<string>, collected: seq<string>, k: string)
    requires Collected(keys, rest, collected) && k in rest
    ensures Collected(keys, rest - {k}, collected + [k])
  {
    assert k !in collected;
  }

  /** `maps.Keys` of a map, in whatever order the map iterates, sorted. */
  method SortedKeys(keys: set<string>) returns (r: seq<string>)
    ensures Ascending(StringLe, r)
    ensures forall x :: x in r <==> x in keys
    ensures r == SortedList(keys)
  {
    var rest, collected := keys, [];
    while rest != {}
      invariant Collected(keys, rest, collected)
    {
      var k :| k in rest;
      CollectedNext(keys, rest, collected, k);
      rest, collected := rest - {k}, collected + [k];
    }
    StringOrder();
    SortAscends(StringLe, collected);
    r := Sort(StringLe, collected);
    AscendingUnique(StringLe, r, SortedList(keys));
  }
}
