/** Sorting by a key order. The program sorts with keys that are total on its elements, so
    the sorted list is determined by the elements alone; `SortedPermutationsAgree` says so. */
module Sorting {
  /** Any two elements compare, and consistently; ties are possible. */
  ghost predicate TotalPreorder<T(!new)>(le: (T, T) -> bool) {
    && (forall a, b :: le(a, b) || le(b, a))
    && (forall a, b, c :: le(a, b) && le(b, c) ==> le(a, c))
  }

  /** No ties either: the shape of most sort keys the program uses. */
  ghost predicate TotalOrder<T(!new)>(le: (T, T) -> bool) {
    TotalPreorder(le) && (forall a, b :: le(a, b) && le(b, a) ==> a == b)
  }

  ghost predicate SortedBy<T>(le: (T, T) -> bool, s: seq<T>) {
    forall i, j :: 0 <= i < j < |s| ==> le(s[i], s[j])
  }

  function Insert<T>(le: (T, T) -> bool, x: T, s: seq<T>): (r: seq<T>)
    ensures multiset(r) == multiset(s)[x := multiset(s)[x] + 1]
    ensures |r| == |s| + 1
  {
    if s == [] then [x]
    else if le(x, s[0]) then
      [x] + s
    else
      assert s == [s[0]] + s[1..];
      [s[0]] + Insert(le, x, s[1..])
  }

  function Sort<T>(le: (T, T) -> bool, s: seq<T>): (r: seq<T>)
    ensures multiset(r) == multiset(s)
    ensures |r| == |s|
  {
    if s == [] then []
    else
      assert s == [s[0]] + s[1..];
      Insert(le, s[0], Sort(le, s[1..]))
  }

  lemma SameElements<T>(a: seq<T>, b: seq<T>)
    requires multiset(a) == multiset(b)
    ensures forall x :: x in a <==> x in b
    ensures |a| == |b|
  {
    forall x ensures x in a <==> x in b {
      assert x in a <==> x in multiset(a);
      assert x in b <==> x in multiset(b);
    }
    assert |multiset(a)| == |a| && |multiset(b)| == |b|;
  }

  lemma {:induction false} InsertSorted<T(!new)>(le: (T, T) -> bool, x: T, s: seq<T>)
    requires TotalPreorder(le) && SortedBy(le, s)
    ensures SortedBy(le, Insert(le, x, s))
  {
    if s != [] && !le(x, s[0]) {
      var tail := Insert(le, x, s[1..]);
      InsertSorted(le, x, s[1..]);
      forall j | 0 <= j < |tail| ensures le(s[0], tail[j]) {
        assert tail[j] in multiset(tail);
        if tail[j] != x { assert tail[j] in multiset(s[1..]); }
      }
    }
  }

  lemma {:induction false} SortIsSorted<T(!new)>(le: (T, T) -> bool, s: seq<T>)
    requires TotalPreorder(le)
    ensures SortedBy(le, Sort(le, s))
  {
    if s != [] {
      SortIsSorted(le, s[1..]);
      InsertSorted(le, s[0], Sort(le, s[1..]));
    }
  }

  lemma LeastFirst<T(!new)>(le: (T, T) -> bool, s: seq<T>, x: T)
    requires SortedBy(le, s) && x in s && le(x, x)
    ensures le(s[0], x)
  {
    var i :| 0 <= i < |s| && s[i] == x;
    assert i > 0 ==> le(s[0], s[i]);
  }

  lemma HeadsAgree<T(!new)>(le: (T, T) -> bool, a: seq<T>, b: seq<T>)
    requires TotalOrder(le) && SortedBy(le, a) && SortedBy(le, b) && a != [] && b != []
    requires a[0] in b && b[0] in a
    ensures a[0] == b[0]
  {
    LeastFirst(le, a, b[0]);
    LeastFirst(le, b, a[0]);
  }

  lemma TailsPermute<T>(a: seq<T>, b: seq<T>)
    requires a != [] && b != [] && a[0] == b[0] && multiset(a) == multiset(b)
    ensures multiset(a[1..]) == multiset(b[1..])
  {
    assert a == [a[0]] + a[1..] && b == [b[0]] + b[1..];
    assert multiset(a[1..]) == multiset(a) - multiset{a[0]};
    assert multiset(b[1..]) == multiset(b) - multiset{b[0]};
  }

  /** A sorted list is determined by its elements. */
  lemma {:induction false} SortedPermutationsAgree<T(!new)>(le: (T, T) -> bool, a: seq<T>, b: seq<T>)
    requires TotalOrder(le) && SortedBy(le, a) && SortedBy(le, b)
    requires multiset(a) == multiset(b)
    ensures a == b
  {
    SameElements(a, b);
    if a != [] {
      HeadsAgree(le, a, b);
      TailsPermute(a, b);
      SortedPermutationsAgree(le, a[1..], b[1..]);
    }
  }

  /** Permuting the input does not change the sorted list. */
  lemma SortIgnoresOrder<T(!new)>(le: (T, T) -> bool, a: seq<T>, b: seq<T>)
    requires TotalOrder(le) && multiset(a) == multiset(b)
    ensures Sort(le, a) == Sort(le, b)
  {
    SortIsSorted(le, a);
    SortIsSorted(le, b);
    SortedPermutationsAgree(le, Sort(le, a), Sort(le, b));
  }

  /** Sorting a sorted list changes nothing, ties included. */
  lemma {:induction false} SortOfSorted<T(!new)>(le: (T, T) -> bool, s: seq<T>)
    requires SortedBy(le, s)
    ensures Sort(le, s) == s
  {
    if s != [] {
      SortOfSorted(le, s[1..]);
      InsertLeast(le, s[0], s[1..]);
    }
  }

  lemma InsertLeast<T>(le: (T, T) -> bool, x: T, s: seq<T>)
    requires s == [] || le(x, s[0])
    ensures Insert(le, x, s) == [x] + s
  {}

  /** The elements of a list with a property, in order. */
  function Keep<T(!new)>(p: T -> bool, s: seq<T>): (r: seq<T>)
    ensures forall x :: x in r <==> x in s && p(x)
  {
    if s == [] then [] else (if p(s[0]) then [s[0]] else []) + Keep(p, s[1..])
  }

  lemma {:induction false} KeepAppend<T(!new)>(p: T -> bool, a: seq<T>, b: seq<T>)
    ensures Keep(p, a + b) == Keep(p, a) + Keep(p, b)
  {
    if a == [] {
      assert a + b == b;
    } else {
      assert (a + b)[0] == a[0] && (a + b)[1..] == a[1..] + b;
      KeepAppend(p, a[1..], b);
    }
  }

  /** A scan meets the elements of the group in order. */
  lemma KeepStep<T(!new)>(p: T -> bool, s: seq<T>, group: seq<T>, i: nat)
    requires i < |s| && Keep(p, s) <= group
    ensures var n := |Keep(p, s[..i])|;
            |Keep(p, s[..i + 1])| == (if p(s[i]) then n + 1 else n) && (p(s[i]) ==> n < |group| && group[n] == s[i])
  {
    var x := s[i];
    assert s[..i + 1] == s[..i] + [x] && s == s[..i + 1] + s[i + 1..];
    KeepAppend(p, s[..i], [x]);
    KeepAppend(p, s[..i + 1], s[i + 1..]);
  }

  lemma {:induction false} KeepCounts<T(!new)>(p: T -> bool, s: seq<T>, x: T)
    ensures multiset(Keep(p, s))[x] == if p(x) then multiset(s)[x] else 0
  {
    if s != [] {
      assert s == [s[0]] + s[1..];
      KeepCounts(p, s[1..], x);
    }
  }

  lemma {:induction false} KeepSorted<T(!new)>(le: (T, T) -> bool, p: T -> bool, s: seq<T>)
    requires SortedBy(le, s)
    ensures SortedBy(le, Keep(p, s))
  {
    if s != [] {
      KeepSorted(le, p, s[1..]);
      var k := Keep(p, s[1..]);
      forall i | 0 <= i < |k| ensures le(s[0], k[i]) {
        assert k[i] in s[1..];
        var j :| 0 <= j < |s[1..]| && s[1..][j] == k[i];
        assert le(s[0], s[j + 1]);
      }
    }
  }

  lemma KeepIsGroup<T(!new)>(le: (T, T) -> bool, p: T -> bool, mixed: seq<T>, group: seq<T>)
    requires TotalOrder(le) && SortedBy(le, mixed) && SortedBy(le, group)
    requires forall x :: multiset(group)[x] == if p(x) then multiset(mixed)[x] else 0
    ensures Keep(p, mixed) == group
  {
    var kept := Keep(p, mixed);
    assert multiset(kept) == multiset(group) by {
      forall x ensures multiset(kept)[x] == multiset(group)[x] { KeepCounts(p, mixed, x); }
    }
    KeepSorted(le, p, mixed);
    SortedPermutationsAgree(le, kept, group);
  }

  /** A group listed in order, and mixed with others into one sorted list: any initial part of
      the mix holds an initial part of the group. */
  lemma PrefixOfGroup<T(!new)>(le: (T, T) -> bool, p: T -> bool, mixed: seq<T>, group: seq<T>, n: nat)
    requires TotalOrder(le) && SortedBy(le, mixed) && SortedBy(le, group) && n <= |mixed|
    requires forall x :: multiset(group)[x] == if p(x) then multiset(mixed)[x] else 0
    ensures Keep(p, mixed[..n]) <= group
  {
    KeepIsGroup(le, p, mixed, group);
    assert mixed[..n] + mixed[n..] == mixed;
    KeepAppend(p, mixed[..n], mixed[n..]);
  }

  /** What is cut off a sorted list ranks after what is kept. */
  lemma KeptFirst<T(!new)>(le: (T, T) -> bool, s: seq<T>, n: nat, a: T, b: T)
    requires SortedBy(le, s) && n <= |s| && a in s[..n] && b in s && b !in s[..n]
    ensures le(a, b)
  {
    var i :| 0 <= i < n && s[i] == a;
    assert s == s[..n] + s[n..];
    var j :| n <= j < |s| && s[j] == b;
  }

  predicate Distinct<T(==)>(s: seq<T>) {
    forall i, j :: 0 <= i < j < |s| ==> s[i] != s[j]
  }

  /** The next element of a scan. */
  lemma TakeNext<T>(s: seq<T>, i: nat)
    requires i < |s|
    ensures s[..i + 1] == s[..i] + [s[i]] && s[i] in s
    ensures Distinct(s) ==> s[i] !in s[..i]
  {}

  /** A repetition is a multiplicity of two. */
  lemma {:induction false} DistinctMultiplicity<T>(s: seq<T>)
    ensures Distinct(s) <==> forall x :: x in s ==> multiset(s)[x] == 1
  {
    if s != [] {
      var init, last := s[..|s| - 1], s[|s| - 1];
      assert s == init + [last];
      DistinctMultiplicity(init);
      if Distinct(s) {
        assert last !in init;
        forall x | x in s ensures multiset(s)[x] == 1 {
          if x in init { assert multiset(init)[x] == 1; }
        }
      } else if Distinct(init) {
        var i, j :| 0 <= i < j < |s| && s[i] == s[j];
        assert j == |s| - 1 && init[i] == last;
        assert last in multiset(init);
        assert last in s && multiset(s)[last] >= 2;
      } else {
        var x :| x in init && multiset(init)[x] != 1;
        assert x in multiset(init) && multiset(s)[x] >= multiset(init)[x] >= 2;
        assert x in s;
      }
    }
  }

  lemma DistinctIgnoresOrder<T>(a: seq<T>, b: seq<T>)
    requires multiset(a) == multiset(b) && Distinct(a)
    ensures Distinct(b)
  {
    DistinctMultiplicity(a);
    DistinctMultiplicity(b);
    SameElements(a, b);
  }

  predicate NatLe(a: nat, b: nat) { a <= b }

  /** Ids in the order in which their rows are locked. */
  function SortIds(s: seq<nat>): (r: seq<nat>)
    ensures multiset(r) == multiset(s)
    ensures |r| == |s|
  {
    Sort(NatLe, s)
  }
}
