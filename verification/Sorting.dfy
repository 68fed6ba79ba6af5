/** The stable sort of JavaScript arrays, as insertion, for any total preorder. */
module Sorting {
  ghost predicate TotalPreorder<T(!new)>(le: (T, T) -> bool) {
    && (forall a, b :: le(a, b) || le(b, a))
    && (forall a, b, c :: le(a, b) && le(b, c) ==> le(a, c))
  }

  ghost predicate SortedBy<T>(s: seq<T>, le: (T, T) -> bool) {
    forall i, j :: 0 <= i < j < |s| ==> le(s[i], s[j])
  }

  function Insert<T>(x: T, s: seq<T>, le: (T, T) -> bool): seq<T> {
    if s == [] || le(x, s[0]) then [x] + s else [s[0]] + Insert(x, s[1..], le)
  }

  function Sort<T>(s: seq<T>, le: (T, T) -> bool): seq<T> {
    if s == [] then [] else Insert(s[0], Sort(s[1..], le), le)
  }

  lemma {:induction false} InsertPermutes<T>(x: T, s: seq<T>, le: (T, T) -> bool)
    ensures multiset(Insert(x, s, le)) == multiset{x} + multiset(s)
  {
    if s != [] && !le(x, s[0]) {
      InsertPermutes(x, s[1..], le);
      assert s == [s[0]] + s[1..];
    }
  }

  lemma {:induction false} SortPermutes<T>(s: seq<T>, le: (T, T) -> bool)
    ensures multiset(Sort(s, le)) == multiset(s)
  {
    if s == [] {
    } else {
      SortPermutes(s[1..], le);
      InsertPermutes(s[0], Sort(s[1..], le), le);
      assert s == [s[0]] + s[1..];
    }
  }

  lemma {:induction false} InsertSorts<T(!new)>(x: T, s: seq<T>, le: (T, T) -> bool)
    requires TotalPreorder(le) && SortedBy(s, le)
    ensures SortedBy(Insert(x, s, le), le)
  {
    if s != [] && !le(x, s[0]) {
      InsertSorts(x, s[1..], le);
      var r := Insert(x, s[1..], le);
      InsertPermutes(x, s[1..], le);
      forall i | 0 <= i < |r| ensures le(s[0], r[i]) {
        assert r[i] in multiset(r);
      }
    }
  }

  lemma {:induction false} SortSorts<T(!new)>(s: seq<T>, le: (T, T) -> bool)
    requires TotalPreorder(le)
    ensures SortedBy(Sort(s, le), le)
  {
    if s == [] {
    } else {
      SortSorts(s[1..], le);
      InsertSorts(s[0], Sort(s[1..], le), le);
    }
  }

  /** No two elements that the order cannot tell apart. */
  ghost predicate Told<T>(s: multiset<T>, le: (T, T) -> bool) {
    forall x, y :: x in s && y in s && le(x, y) && le(y, x) ==> x == y
  }

  lemma SameFirst<T>(a: seq<T>, b: seq<T>, le: (T, T) -> bool)
    requires SortedBy(a, le) && SortedBy(b, le) && multiset(a) == multiset(b) && Told(multiset(a), le) && a != []
    ensures |b| == |a| && a[0] == b[0]
  {
    assert |multiset(a)| == |multiset(b)|;
    assert a[0] in multiset(b) && b[0] in multiset(a);
    var i :| 0 <= i < |b| && b[i] == a[0];
    var j :| 0 <= j < |a| && a[j] == b[0];
    assert i > 0 ==> le(b[0], a[0]);
    assert j > 0 ==> le(a[0], b[0]);
  }

  lemma RestOf<T>(a: seq<T>)
    requires a != []
    ensures a == [a[0]] + a[1..] && multiset(a[1..]) == multiset(a) - multiset{a[0]}
  {
    assert a == [a[0]] + a[1..];
  }

  lemma {:induction false} SortedUnique<T>(a: seq<T>, b: seq<T>, le: (T, T) -> bool)
    requires SortedBy(a, le) && SortedBy(b, le) && multiset(a) == multiset(b) && Told(multiset(a), le)
    ensures a == b
  {
    if a == [] {
      assert |multiset(b)| == 0;
    } else {
      SameFirst(a, b, le);
      RestOf(a);
      RestOf(b);
      SortedUnique(a[1..], b[1..], le);
    }
  }

  /** Sorting forgets the order of the input, when the order tells its elements apart. */
  lemma SortForgetsOrder<T(!new)>(a: seq<T>, b: seq<T>, le: (T, T) -> bool)
    requires TotalPreorder(le) && multiset(a) == multiset(b) && Told(multiset(a), le)
    ensures Sort(a, le) == Sort(b, le)
  {
    SortSorts(a, le);
    SortSorts(b, le);
    SortPermutes(a, le);
    SortPermutes(b, le);
    SortedUnique(Sort(a, le), Sort(b, le), le);
  }

  /** A stable sort leaves a sorted list as it is. */
  lemma {:induction false} SortOfSorted<T(!new)>(s: seq<T>, le: (T, T) -> bool)
    requires TotalPreorder(le) && SortedBy(s, le)
    ensures Sort(s, le) == s
  {
    if s == [] {
    } else {
      SortOfSorted(s[1..], le);
      assert s == [s[0]] + s[1..];
    }
  }

  // ---------------------------------------------------------------- elements that the order cannot tell apart

  /** Insertion puts `x` before the element at `n`. */
  ghost predicate Fits<T>(x: T, s: seq<T>, n: nat, le: (T, T) -> bool) {
    n <= |s| && (forall i :: 0 <= i < n ==> !le(x, s[i])) && (n < |s| ==> le(x, s[n]))
  }

  lemma {:induction false} InsertAt<T>(x: T, s: seq<T>, n: nat, le: (T, T) -> bool)
    requires Fits(x, s, n, le)
    ensures Insert(x, s, le) == s[..n] + [x] + s[n..]
  {
    if n == 0 {
      assert s[..0] + [x] + s[0..] == [x] + s;
    } else {
      InsertAt(x, s[1..], n - 1, le);
      assert s[..n] + [x] + s[n..] == [s[0]] + (s[1..][..n - 1] + [x] + s[1..][n - 1..]);
    }
  }

  lemma {:induction false} Place<T>(x: T, s: seq<T>, le: (T, T) -> bool) returns (n: nat)
    ensures Fits(x, s, n, le)
  {
    if s == [] || le(x, s[0]) {
      n := 0;
    } else {
      var m := Place(x, s[1..], le);
      n := m + 1;
    }
  }

  lemma TwoInserted<T>(x: T, y: T, s: seq<T>, n: nat, le: (T, T) -> bool)
    requires le(x, y) && Fits(x, Sort(s, le), n, le) && Fits(y, Sort(s, le), n, le)
    ensures Sort([x, y] + s, le) == Sort(s, le)[..n] + [x, y] + Sort(s, le)[n..]
  {
    var sorted := Sort(s, le);
    assert ([x, y] + s)[1..] == [y] + s && ([y] + s)[1..] == s;
    InsertAt(y, sorted, n, le);
    var t := sorted[..n] + [y] + sorted[n..];
    InsertAt(x, t, n, le);
    BehindInserted(y, sorted, n);
    JoinInserted(sorted[..n], x, y, sorted[n..]);
  }

  lemma BehindInserted<T>(y: T, s: seq<T>, n: nat)
    requires n <= |s|
    ensures var t := s[..n] + [y] + s[n..]; t[..n] == s[..n] && t[n..] == [y] + s[n..]
  {
  }

  lemma JoinInserted<T>(front: seq<T>, x: T, y: T, behind: seq<T>)
    ensures front + [x] + ([y] + behind) == front + [x, y] + behind
  {
  }

  lemma FitsBoth<T(!new)>(x: T, y: T, s: seq<T>, n: nat, le: (T, T) -> bool)
    requires TotalPreorder(le) && le(x, y) && le(y, x) && Fits(x, s, n, le)
    ensures Fits(y, s, n, le)
  {
    forall i | 0 <= i < n ensures !le(y, s[i]) {
      var z := s[i];
      assert le(x, z) || !le(y, z);
    }
    if n < |s| { assert le(y, x) && le(x, s[n]); }
  }

  /** Two elements not told apart that are listed first are neighbours after sorting, in the order of the list. */
  lemma SortedNeighbours<T(!new)>(x: T, y: T, s: seq<T>, le: (T, T) -> bool) returns (front: seq<T>, behind: seq<T>)
    requires TotalPreorder(le) && le(x, y) && le(y, x)
    ensures Sort([x, y] + s, le) == front + [x, y] + behind
    ensures Sort([y, x] + s, le) == front + [y, x] + behind
  {
    var n := Place(x, Sort(s, le), le);
    FitsBoth(x, y, Sort(s, le), n, le);
    TwoInserted(x, y, s, n, le);
    TwoInserted(y, x, s, n, le);
    front, behind := Sort(s, le)[..n], Sort(s, le)[n..];
  }

  function Without<T>(s: seq<T>, k: nat): seq<T>
    requires k < |s|
  {
    s[..k] + s[k + 1..]
  }

  lemma WithoutOne<T>(s: seq<T>, k: nat)
    requires k < |s|
    ensures multiset(s) == multiset{s[k]} + multiset(Without(s, k))
    ensures forall x :: x in Without(s, k) ==> x in s
  {
    assert s == s[..k] + [s[k]] + s[k + 1..];
  }

  /** What is left of a list without two of its elements. */
  lemma TakeOut<T>(a: seq<T>, x: T, y: T) returns (rest: seq<T>)
    requires x in a && y in a && x != y
    ensures multiset(a) == multiset{x, y} + multiset(rest)
  {
    var i :| 0 <= i < |a| && a[i] == x;
    WithoutOne(a, i);
    var b := Without(a, i);
    assert y in multiset(b) by { assert y in multiset(a); }
    var j :| 0 <= j < |b| && b[j] == y;
    WithoutOne(b, j);
    rest := Without(b, j);
  }

  /** Two orders of a list that are sorted differently. */
  lemma TwoOrders<T(!new)>(a: seq<T>, x: T, y: T, le: (T, T) -> bool) returns (b: seq<T>, c: seq<T>)
    requires TotalPreorder(le) && x in a && y in a && x != y && le(x, y) && le(y, x)
    ensures multiset(b) == multiset(a) == multiset(c) && Sort(b, le) != Sort(c, le)
  {
    var rest := TakeOut(a, x, y);
    b, c := [x, y] + rest, [y, x] + rest;
    var front, behind := SortedNeighbours(x, y, rest, le);
    assert Sort(b, le)[|front|] == x && Sort(c, le)[|front|] == y;
  }

  /** Sorting forgets the order of the input exactly when the order tells its elements apart. */
  lemma SortForgetsOrderIff<T(!new)>(a: seq<T>, le: (T, T) -> bool)
    requires TotalPreorder(le)
    ensures Told(multiset(a), le) <==> forall b :: multiset(b) == multiset(a) ==> Sort(b, le) == Sort(a, le)
  {
    forall b | Told(multiset(a), le) && multiset(b) == multiset(a) ensures Sort(b, le) == Sort(a, le) {
      SortForgetsOrder(a, b, le);
    }
    if !Told(multiset(a), le) {
      var x, y :| x in multiset(a) && y in multiset(a) && le(x, y) && le(y, x) && x != y;
      var b, c := TwoOrders(a, x, y, le);
    }
  }

  /** Two places of a sequence are found in its permutations. */
  lemma TwoPlaces<T>(a: seq<T>, b: seq<T>, i: nat, j: nat)
    requires multiset(a) == multiset(b) && i < j < |b|
    ensures exists k, l :: 0 <= k < |a| && 0 <= l < |a| && k != l && a[k] == b[i] && a[l] == b[j]
  {
    assert b[i] in multiset(a) && b[j] in multiset(a);
    var k :| 0 <= k < |a| && a[k] == b[i];
    if b[i] == b[j] {
      CountedTwice(b, i, j);
      ListedTwice(a, k);
    } else {
      var l :| 0 <= l < |a| && a[l] == b[j];
      assert k != l;
    }
  }

  lemma CountedTwice<T>(b: seq<T>, i: nat, j: nat)
    requires i < j < |b| && b[i] == b[j]
    ensures multiset(b)[b[i]] >= 2
  {
    assert b == b[..j] + [b[j]] + b[j + 1..];
    assert b[i] in b[..j];
  }

  lemma ListedTwice<T>(a: seq<T>, k: nat)
    requires k < |a| && multiset(a)[a[k]] >= 2
    ensures exists l :: 0 <= l < |a| && l != k && a[l] == a[k]
  {
    assert a == a[..k] + [a[k]] + a[k + 1..];
    assert a[k] in multiset(a[..k]) || a[k] in multiset(a[k + 1..]);
    if a[k] in a[..k] {
      var m :| 0 <= m < k && a[..k][m] == a[k];
      assert a[m] == a[k];
    } else {
      var m :| 0 <= m < |a[k + 1..]| && a[k + 1..][m] == a[k];
      assert a[k + 1 + m] == a[k];
    }
  }
}
