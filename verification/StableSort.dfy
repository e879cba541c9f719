/** `Array.prototype.sort` with the comparator key(a) - key(b): since ECMAScript
    2019 the sort is stable, so its result is the one computed here. */
module StableSort {
  import opened Prelude

  ghost predicate Sorted<T(!new)>(key: T -> nat, s: seq<T>) {
    forall i, j :: 0 <= i < j < |s| ==> key(s[i]) <= key(s[j])
  }

  function InsertFirst<T>(key: T -> nat, x: T, s: seq<T>): seq<T> {
    if s == [] || key(x) <= key(s[0]) then [x] + s
    else [s[0]] + InsertFirst(key, x, s[1..])
  }

  function Sort<T>(key: T -> nat, s: seq<T>): seq<T> {
    if s == [] then [] else InsertFirst(key, s[0], Sort(key, s[1..]))
  }

  /** The elements of one key, in their order of appearance. */
  function Ties<T>(key: T -> nat, s: seq<T>, k: nat): seq<T> {
    if s == [] then []
    else (if key(s[0]) == k then [s[0]] else []) + Ties(key, s[1..], k)
  }

  lemma {:induction false} InsertFirstPermutes<T>(key: T -> nat, x: T, s: seq<T>)
    ensures multiset(InsertFirst(key, x, s)) == multiset{x} + multiset(s)
  {
    if s == [] || key(x) <= key(s[0]) {
    } else {
      InsertFirstPermutes(key, x, s[1..]);
      assert s == [s[0]] + s[1..];
    }
  }

  lemma {:induction false} SortedCons<T(!new)>(key: T -> nat, x: T, s: seq<T>)
    requires Sorted(key, s) && forall y :: y in s ==> key(x) <= key(y)
    ensures Sorted(key, [x] + s)
  {
  }

  lemma {:induction false} InsertFirstSorted<T(!new)>(key: T -> nat, x: T, s: seq<T>)
    requires Sorted(key, s)
    ensures Sorted(key, InsertFirst(key, x, s))
  {
    if s == [] {
    } else if key(x) <= key(s[0]) {
      SortedCons(key, x, s);
    } else {
      var t := InsertFirst(key, x, s[1..]);
      InsertFirstSorted(key, x, s[1..]);
      forall y | y in t ensures key(s[0]) <= key(y) {
        InsertFirstPermutes(key, x, s[1..]);
        assert y in multiset(t);
      }
      SortedCons(key, s[0], t);
    }
  }

  lemma {:induction false} TiesCons<T(!new)>(key: T -> nat, x: T, s: seq<T>, k: nat)
    ensures Ties(key, [x] + s, k) == (if key(x) == k then [x] else []) + Ties(key, s, k)
  {
    assert ([x] + s)[1..] == s;
  }

  lemma {:induction false} InsertFirstTies<T(!new)>(key: T -> nat, x: T, s: seq<T>, k: nat)
    requires Sorted(key, s)
    ensures Ties(key, InsertFirst(key, x, s), k) == Ties(key, [x] + s, k)
  {
    if s == [] || key(x) <= key(s[0]) {
    } else {
      InsertFirstTies(key, x, s[1..], k);
      TiesCons(key, s[0], InsertFirst(key, x, s[1..]), k);
      TiesCons(key, x, s, k);
      TiesCons(key, x, s[1..], k);
    }
  }

  lemma {:induction false} SortFacts<T(!new)>(key: T -> nat, s: seq<T>)
    ensures Sorted(key, Sort(key, s))
    ensures multiset(Sort(key, s)) == multiset(s)
  {
    if s != [] {
      SortFacts(key, s[1..]);
      InsertFirstSorted(key, s[0], Sort(key, s[1..]));
      InsertFirstPermutes(key, s[0], Sort(key, s[1..]));
      assert s == [s[0]] + s[1..];
    }
  }

  /** Stability: elements of equal key keep their relative order. */
  lemma {:induction false} SortTies<T(!new)>(key: T -> nat, s: seq<T>, k: nat)
    ensures Ties(key, Sort(key, s), k) == Ties(key, s, k)
  {
    if s != [] {
      SortTies(key, s[1..], k);
      SortFacts(key, s[1..]);
      InsertFirstTies(key, s[0], Sort(key, s[1..]), k);
      TiesCons(key, s[0], Sort(key, s[1..]), k);
    }
  }

  /** x belongs before y: a smaller key, or the same key and an earlier place in s. */
  predicate Before<T(==)>(key: T -> nat, s: seq<T>, x: T, y: T) {
    key(x) < key(y) || (key(x) == key(y) && IndexOf(s, x) < IndexOf(s, y))
  }

  ghost predicate InOrder<T(!new)>(key: T -> nat, s: seq<T>, t: seq<T>) {
    forall i, j :: 0 <= i < j < |t| ==> Before(key, s, t[i], t[j])
  }

  lemma {:induction false} BeforeInTail<T>(key: T -> nat, s: seq<T>, x: T, y: T)
    requires Distinct(s) && s != [] && x in s[1..] && y in s[1..]
    ensures Before(key, s, x, y) <==> Before(key, s[1..], x, y)
  {
    assert s[0] != x && s[0] != y;
  }

  lemma {:induction false} InsertFirstInOrder<T(!new)>(key: T -> nat, s: seq<T>, t: seq<T>)
    requires Distinct(s) && s != [] && InOrder(key, s, t) && forall y :: y in t ==> y in s[1..]
    ensures InOrder(key, s, InsertFirst(key, s[0], t))
  {
    if t == [] || key(s[0]) <= key(t[0]) {
      HeadInOrder(key, s, t);
    } else {
      var u := InsertFirst(key, s[0], t[1..]);
      assert forall i, j :: 0 <= i < j < |t| - 1 ==> t[1..][i] == t[i + 1] && t[1..][j] == t[j + 1];
      assert InOrder(key, s, t[1..]);
      InsertFirstInOrder(key, s, t[1..]);
      InsertFirstPermutes(key, s[0], t[1..]);
      forall y | y in u ensures Before(key, s, t[0], y) {
        assert y in multiset(u);
        if y != s[0] {
          var k :| 0 <= k < |t| - 1 && t[1..][k] == y;
          assert Before(key, s, t[0], t[k + 1]);
        }
      }
      ConsInOrder(key, s, t[0], u);
    }
  }

  lemma {:induction false} ConsInOrder<T(!new)>(key: T -> nat, s: seq<T>, x: T, t: seq<T>)
    requires InOrder(key, s, t) && forall y :: y in t ==> Before(key, s, x, y)
    ensures InOrder(key, s, [x] + t)
  {
  }

  lemma {:induction false} HeadInOrder<T(!new)>(key: T -> nat, s: seq<T>, t: seq<T>)
    requires Distinct(s) && s != [] && InOrder(key, s, t) && forall y :: y in t ==> y in s[1..]
    requires t != [] ==> key(s[0]) <= key(t[0])
    ensures InOrder(key, s, [s[0]] + t)
  {
    forall y | y in t ensures Before(key, s, s[0], y) {
      var k :| 0 <= k < |t| && t[k] == y;
      if k > 0 { assert Before(key, s, t[0], t[k]); }
      assert y != s[0] && IndexOf(s, y) > 0;
    }
    ConsInOrder(key, s, s[0], t);
  }

  /** The sorted list is in order by key and, among equal keys, by place. */
  lemma {:induction false} SortInOrder<T(!new)>(key: T -> nat, s: seq<T>)
    requires Distinct(s)
    ensures InOrder(key, s, Sort(key, s))
  {
    if s != [] {
      var t := Sort(key, s[1..]);
      SortInOrder(key, s[1..]);
      SortFacts(key, s[1..]);
      MultisetElements(s[1..], t);
      forall i, j | 0 <= i < j < |t| ensures Before(key, s, t[i], t[j]) {
        BeforeInTail(key, s, t[i], t[j]);
      }
      InsertFirstInOrder(key, s, t);
    }
  }

  ghost function Earlier<T(!new)>(key: T -> nat, s: seq<T>, x: T): set<T> {
    set y | y in s && Before(key, s, y, x)
  }

  /** The place of an element in the sorted list is how many belong before it. */
  lemma {:induction false} SortedPlace<T(!new)>(key: T -> nat, s: seq<T>, i: nat)
    requires Distinct(s) && i < |Sort(key, s)|
    ensures |Earlier(key, s, Sort(key, s)[i])| == i
  {
    var t := Sort(key, s);
    SortInOrder(key, s);
    SortFacts(key, s);
    MultisetElements(s, t);
    DistinctSize(t[..i]);
    forall y ensures y in Earlier(key, s, t[i]) <==> y in t[..i] {
      if y in s {
        var k :| 0 <= k < |t| && t[k] == y;
        if k < i {
          assert Before(key, s, t[k], t[i]) && t[..i][k] == y;
        } else if k > i {
          assert Before(key, s, t[i], t[k]);
        }
      }
    }
    assert Earlier(key, s, t[i]) == Elements(t[..i]);
  }

  lemma {:induction false} MultisetElements<T>(a: seq<T>, b: seq<T>)
    requires multiset(a) == multiset(b)
    ensures |a| == |b| && (forall x :: x in a <==> x in b)
    ensures Distinct(a) ==> Distinct(b)
  {
    assert |multiset(a)| == |a| && |multiset(b)| == |b|;
    forall x ensures x in a <==> x in b {
      assert x in a <==> x in multiset(a);
      assert x in b <==> x in multiset(b);
    }
    if Distinct(a) && !Distinct(b) {
      var i, j :| 0 <= i < j < |b| && b[i] == b[j];
      Twice(b, i, j);
      AtMostOnce(a, b[i]);
      assert false;
    }
  }

  lemma {:induction false} Twice<T>(s: seq<T>, i: nat, j: nat)
    requires i < j < |s| && s[i] == s[j]
    ensures multiset(s)[s[i]] >= 2
  {
    assert s == s[..j] + [s[j]] + s[j + 1..];
    assert s[i] in s[..j];
    assert s[i] in multiset(s[..j]);
  }

  lemma {:induction false} AtMostOnce<T>(s: seq<T>, x: T)
    requires Distinct(s)
    ensures multiset(s)[x] <= 1
  {
    if s != [] {
      AtMostOnce(s[1..], x);
      assert s == [s[0]] + s[1..];
      if s[0] == x {
        assert x !in s[1..];
        assert x !in multiset(s[1..]);
      }
    }
  }

  ghost predicate InjectiveOn<T(!new)>(key: T -> nat, members: set<T>) {
    forall a, b :: a in members && b in members && key(a) == key(b) ==> a == b
  }

  ghost predicate Enumerates<T(!new)>(s: seq<T>, members: set<T>) {
    Distinct(s) && (forall x :: x in s <==> x in members)
  }

  ghost predicate OrderIndependent<T(!new)>(key: T -> nat, members: set<T>) {
    forall s, t :: Enumerates(s, members) && Enumerates(t, members) ==> Sort(key, s) == Sort(key, t)
  }

  lemma {:induction false} SortedUnique<T(!new)>(key: T -> nat, a: seq<T>, b: seq<T>, members: set<T>)
    requires Enumerates(a, members) && Enumerates(b, members) && InjectiveOn(key, members)
    requires Sorted(key, a) && Sorted(key, b)
    ensures a == b
    decreases |a|
  {
    if a == [] {
      assert Elements(a) == members == Elements(b);
      DistinctSize(b);
    } else {
      assert a[0] in members && a[0] in b;
      assert b[0] in members && b[0] in a;
      assert key(a[0]) <= key(b[0]) && key(b[0]) <= key(a[0]);
      assert a[0] == b[0];
      assert a == [a[0]] + a[1..] && b == [b[0]] + b[1..];
      SortedUnique(key, a[1..], b[1..], members - {a[0]});
    }
  }

  lemma {:induction false} SortEnumerates<T(!new)>(key: T -> nat, s: seq<T>, members: set<T>)
    requires Enumerates(s, members)
    ensures Enumerates(Sort(key, s), members) && Sorted(key, Sort(key, s))
  {
    SortFacts(key, s);
    MultisetElements(s, Sort(key, s));
  }

  lemma {:induction false} SomeEnumeration<T(!new)>(members: set<T>) returns (s: seq<T>)
    ensures Enumerates(s, members)
  {
    if members == {} {
      s := [];
    } else {
      var x :| x in members;
      var t := SomeEnumeration(members - {x});
      s := [x] + t;
    }
  }

  /** Every insertion order of a peer set sorts to one and the same list exactly
      when no two of its members share a key. */
  lemma {:induction false} OrderIndependentIffInjective<T(!new)>(key: T -> nat, members: set<T>)
    ensures OrderIndependent(key, members) <==> InjectiveOn(key, members)
  {
    if InjectiveOn(key, members) {
      forall s, t | Enumerates(s, members) && Enumerates(t, members)
        ensures Sort(key, s) == Sort(key, t)
      {
        SortEnumerates(key, s, members);
        SortEnumerates(key, t, members);
        SortedUnique(key, Sort(key, s), Sort(key, t), members);
      }
    } else {
      var a, b :| a in members && b in members && key(a) == key(b) && a != b;
      TiedPairBreaksOrder(key, members, a, b);
    }
  }

  lemma {:induction false} TiedPairBreaksOrder<T(!new)>(key: T -> nat, members: set<T>, a: T, b: T)
    requires a in members && b in members && key(a) == key(b) && a != b
    ensures !OrderIndependent(key, members)
  {
    var u := SomeEnumeration(members - {a, b});
    var s, t := [a] + ([b] + u), [b] + ([a] + u);
    assert Enumerates(s, members) && Enumerates(t, members);
    TiesCons(key, a, [b] + u, key(a));
    TiesCons(key, b, [a] + u, key(a));
    SortTies(key, s, key(a));
    SortTies(key, t, key(a));
    assert Ties(key, s, key(a))[0] == a && Ties(key, t, key(a))[0] == b;
    assert Sort(key, s) != Sort(key, t);
  }
}
