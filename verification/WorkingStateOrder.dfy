/**
 How the text that is hashed depends on the order in which changes are listed. The changes are sorted stably by path, so
 changes that the comparison of paths cannot tell apart keep the order of the list: changes to one path, and changes to
 two paths that `localeCompare` takes for equal, as it does for canonically equivalent strings.
 */
module WorkingStateOrder {
  import opened Wrappers
  import opened Sorting
  import opened WorkingStateHash

  lemma ByPathPreorder(le: (Text, Text) -> bool)
    requires TotalPreorder(le)
    ensures TotalPreorder(ByPath(le))
  {
    var f := ByPath(le);
    forall a, b ensures f(a, b) || f(b, a) {
      assert le(a.path, b.path) || le(b.path, a.path);
    }
    forall a, b, c | f(a, b) && f(b, c) ensures f(a, c) {
      assert le(a.path, b.path) && le(b.path, c.path);
    }
  }

  // ---------------------------------------------------------------- changes that the comparison cannot tell apart

  /** The two changes print alike in both orders. */
  predicate Commute(x: Change, y: Change) {
    Print(x) + BAR + Print(y) == Print(y) + BAR + Print(x)
  }

  /** The comparison of paths cannot tell the changes apart. */
  predicate Untold(x: Change, y: Change, le: (Text, Text) -> bool) {
    le(x.path, y.path) && le(y.path, x.path)
  }

  ghost predicate UntoldCommute(changes: seq<Change>, le: (Text, Text) -> bool) {
    forall x, y :: x in changes && y in changes && Untold(x, y, le) ==> Commute(x, y)
  }

  /** What is printed behind an earlier change. */
  function Rest(changes: seq<Change>): Text {
    if changes == [] then [] else BAR + PrintAll(changes)
  }

  lemma PrintCons(x: Change, changes: seq<Change>)
    ensures PrintAll([x] + changes) == Print(x) + Rest(changes)
  {
    assert ([x] + changes)[1..] == changes;
    assert Print(x) + BAR + PrintAll(changes) == Print(x) + (BAR + PrintAll(changes));
    assert Print(x) + [] == Print(x);
  }

  lemma Regroup(a: Text, b: Text, c: Text, d: Text)
    ensures a + (b + (c + d)) == a + b + c + d
  {
    assert a + b + (c + d) == a + b + c + d;
  }

  lemma PrintTwo(x: Change, y: Change, changes: seq<Change>)
    ensures PrintAll([x, y] + changes) == Print(x) + BAR + Print(y) + Rest(changes)
  {
    assert [x, y] + changes == [x] + ([y] + changes);
    PrintCons(x, [y] + changes);
    PrintCons(y, changes);
    Regroup(Print(x), BAR, Print(y), Rest(changes));
  }

  lemma SameBehind(front: Text, a: Text, b: Text)
    ensures front + a == front + b <==> a == b
  {
    assert (front + a)[|front|..] == a && (front + b)[|front|..] == b;
  }

  lemma SameBefore(a: Text, b: Text, behind: Text)
    requires |a| == |b|
    ensures a + behind == b + behind <==> a == b
  {
    assert (a + behind)[..|a|] == a && (b + behind)[..|b|] == b;
  }

  /** Swapping two neighbours leaves the print as it is exactly when they commute. */
  lemma {:induction false} SwapNeighbours(front: seq<Change>, x: Change, y: Change, behind: seq<Change>)
    ensures PrintAll(front + [x, y] + behind) == PrintAll(front + [y, x] + behind) <==> Commute(x, y)
  {
    if front == [] {
      assert front + [x, y] + behind == [x, y] + behind && front + [y, x] + behind == [y, x] + behind;
      PrintTwo(x, y, behind);
      PrintTwo(y, x, behind);
      SameBefore(Print(x) + BAR + Print(y), Print(y) + BAR + Print(x), Rest(behind));
    } else {
      var f, tail := front[0], front[1..];
      var xy, yx := tail + [x, y] + behind, tail + [y, x] + behind;
      assert front + [x, y] + behind == [f] + xy && front + [y, x] + behind == [f] + yx;
      PrintCons(f, xy);
      PrintCons(f, yx);
      SameBehind(Print(f), BAR + PrintAll(xy), BAR + PrintAll(yx));
      SameBehind(BAR, PrintAll(xy), PrintAll(yx));
      SwapNeighbours(tail, x, y, behind);
    }
  }

  /** A change that commutes with those before it may come first. */
  lemma {:induction false} MoveToFront(s: seq<Change>, k: nat)
    requires k < |s| && forall i :: 0 <= i < k ==> Commute(s[i], s[k])
    ensures PrintAll(s) == PrintAll([s[k]] + Without(s, k))
    decreases k
  {
    if k == 0 {
      assert [s[0]] + Without(s, 0) == s;
    } else {
      var t := s[..k - 1] + [s[k], s[k - 1]] + s[k + 1..];
      Swapped(s, t, k);
      SwapNeighbours(s[..k - 1], s[k - 1], s[k], s[k + 1..]);
      MoveToFront(t, k - 1);
    }
  }

  lemma Swapped(s: seq<Change>, t: seq<Change>, k: nat)
    requires 0 < k < |s| && t == s[..k - 1] + [s[k], s[k - 1]] + s[k + 1..]
    ensures s == s[..k - 1] + [s[k - 1], s[k]] + s[k + 1..]
    ensures |t| == |s| && t[k - 1] == s[k] && Without(t, k - 1) == Without(s, k)
    ensures forall i :: 0 <= i < k - 1 ==> t[i] == s[i]
  {
  }

  /** In two orders of the same changes, those before the other's first are not told apart from it. */
  lemma BeforeFirst(s: seq<Change>, t: seq<Change>, k: nat, i: nat, le: (Text, Text) -> bool)
    requires TotalPreorder(le) && SortedBy(s, ByPath(le)) && SortedBy(t, ByPath(le)) && multiset(s) == multiset(t)
    requires t != [] && i < k < |s| && s[k] == t[0]
    ensures Untold(s[i], s[k], le)
  {
    assert ByPath(le)(s[i], s[k]);
    assert s[i] in multiset(t);
    var j :| 0 <= j < |t| && t[j] == s[i];
    assert j > 0 ==> ByPath(le)(t[0], t[j]);
    assert le(s[k].path, s[k].path);
  }

  lemma WithoutSorted(s: seq<Change>, k: nat, le: (Text, Text) -> bool)
    requires k < |s| && SortedBy(s, ByPath(le)) && UntoldCommute(s, le)
    ensures SortedBy(Without(s, k), ByPath(le)) && UntoldCommute(Without(s, k), le)
  {
    var r := Without(s, k);
    WithoutOne(s, k);
    forall i, j | 0 <= i < j < |r| ensures ByPath(le)(r[i], r[j]) {
      var i', j' := if i < k then i else i + 1, if j < k then j else j + 1;
      assert r[i] == s[i'] && r[j] == s[j'];
    }
  }

  /** The first change of one order stands in the other, behind changes with which it commutes. */
  lemma FirstInOther(s: seq<Change>, t: seq<Change>, le: (Text, Text) -> bool) returns (k: nat)
    requires TotalPreorder(le) && SortedBy(s, ByPath(le)) && SortedBy(t, ByPath(le)) && multiset(s) == multiset(t)
    requires UntoldCommute(s, le) && t != []
    ensures k < |s| && s[k] == t[0] && forall i :: 0 <= i < k ==> Commute(s[i], s[k])
  {
    assert t[0] in multiset(s);
    k :| 0 <= k < |s| && s[k] == t[0];
    forall i | 0 <= i < k ensures Commute(s[i], s[k]) {
      BeforeFirst(s, t, k, i, le);
    }
  }

  lemma SameWithoutFirst(s: seq<Change>, t: seq<Change>, k: nat)
    requires multiset(s) == multiset(t) && t != [] && k < |s| && s[k] == t[0]
    ensures multiset(Without(s, k)) == multiset(t[1..])
  {
    WithoutOne(s, k);
    assert t == [t[0]] + t[1..];
    assert multiset(t[1..]) == multiset(t) - multiset{t[0]};
    assert multiset(Without(s, k)) == multiset(s) - multiset{s[k]};
  }

  /** Sorted lists of the same changes print alike when changes that are not told apart commute. */
  lemma {:induction false} SortedPrintsAgree(s: seq<Change>, t: seq<Change>, le: (Text, Text) -> bool)
    requires TotalPreorder(le) && SortedBy(s, ByPath(le)) && SortedBy(t, ByPath(le)) && multiset(s) == multiset(t)
    requires UntoldCommute(s, le)
    ensures PrintAll(s) == PrintAll(t)
    decreases |t|
  {
    SameLength(s, t);
    if t == [] {
    } else {
      var k := FirstInOther(s, t, le);
      MoveToFront(s, k);
      SameWithoutFirst(s, t, k);
      WithoutSorted(s, k, le);
      SortedPrintsAgree(Without(s, k), t[1..], le);
      SameLength(Without(s, k), t[1..]);
      PrintCons(t[0], Without(s, k));
      PrintCons(t[0], t[1..]);
      assert t == [t[0]] + t[1..];
    }
  }

  lemma SameLength(a: seq<Change>, b: seq<Change>)
    requires multiset(a) == multiset(b)
    ensures |a| == |b|
  {
    assert |multiset(a)| == |multiset(b)|;
  }

  /** The hashed text does not depend on the order of the list exactly when changes not told apart commute. */
  lemma PrintOrderIrrelevantIff(a: seq<Change>, le: (Text, Text) -> bool)
    requires TotalPreorder(le)
    ensures UntoldCommute(a, le) <==>
      forall b :: multiset(b) == multiset(a) ==> PrintAll(Sort(b, ByPath(le))) == PrintAll(Sort(a, ByPath(le)))
  {
    forall b | UntoldCommute(a, le) && multiset(b) == multiset(a)
      ensures PrintAll(Sort(b, ByPath(le))) == PrintAll(Sort(a, ByPath(le)))
    {
      SortedPermutationsAgree(a, b, le);
    }
    if !UntoldCommute(a, le) {
      var x, y :| x in a && y in a && Untold(x, y, le) && !Commute(x, y);
      var b, c := TwoPrints(a, x, y, le);
    }
  }

  /** Two orders of a list with changes not told apart that do not commute, whose prints differ. */
  lemma TwoPrints(a: seq<Change>, x: Change, y: Change, le: (Text, Text) -> bool)
    returns (b: seq<Change>, c: seq<Change>)
    requires TotalPreorder(le) && x in a && y in a && Untold(x, y, le) && !Commute(x, y)
    ensures multiset(b) == multiset(a) == multiset(c)
    ensures PrintAll(Sort(b, ByPath(le))) != PrintAll(Sort(c, ByPath(le)))
  {
    var rest := TakeOut(a, x, y);
    ByPathPreorder(le);
    var front, behind := SortedNeighbours(x, y, rest, ByPath(le));
    SwapNeighbours(front, x, y, behind);
    b, c := [x, y] + rest, [y, x] + rest;
  }

  lemma SortedPermutationsAgree(a: seq<Change>, b: seq<Change>, le: (Text, Text) -> bool)
    requires TotalPreorder(le) && UntoldCommute(a, le) && multiset(b) == multiset(a)
    ensures PrintAll(Sort(b, ByPath(le))) == PrintAll(Sort(a, ByPath(le)))
  {
    ByPathPreorder(le);
    SortSorts(a, ByPath(le));
    SortSorts(b, ByPath(le));
    SortPermutes(a, ByPath(le));
    SortPermutes(b, ByPath(le));
    forall x | x in Sort(a, ByPath(le)) ensures x in a {
      assert x in multiset(Sort(a, ByPath(le)));
    }
    SortedPrintsAgree(Sort(a, ByPath(le)), Sort(b, ByPath(le)), le);
  }

  /** So changes hash alike in whatever order they are listed when those not told apart commute. */
  lemma ListingOrderIrrelevant(a: seq<Change>, b: seq<Change>, le: (Text, Text) -> bool)
    requires TotalPreorder(le) && UntoldCommute(a, le) && multiset(a) == multiset(b)
    ensures StateHash(a, le) == StateHash(b, le)
  {
    SortedPermutationsAgree(a, b, le);
  }

  /** Neither separator occurs. */
  predicate Plain(s: Text) {
    COLON[0] !in s && BAR[0] !in s
  }

  /** Changes to two paths without separators never commute. */
  lemma DistinctPathsNeverCommute(x: Change, y: Change)
    requires Plain(x.path) && Plain(y.path) && x.path != y.path
    ensures !Commute(x, y)
  {
    var xs, ys := Payload(x) + (BAR + Print(y)), Payload(y) + (BAR + Print(x));
    Regroup(x.path + COLON, Payload(x), BAR, Print(y));
    Regroup(y.path + COLON, Payload(y), BAR, Print(x));
    if Commute(x, y) { FirstColon(x.path, xs, y.path, ys); }
  }

  /** What stands before the first colon is determined by the text. */
  lemma FirstColon(a: Text, s: Text, b: Text, t: Text)
    requires COLON[0] !in a && COLON[0] !in b && a + COLON + s == b + COLON + t
    ensures a == b && s == t
  {
    var x, y := a + COLON + s, b + COLON + t;
    assert x[|a|] == COLON[0] && y[|b|] == COLON[0];
    assert a == x[..|a|] && b == y[..|b|];
    assert s == x[|a| + 1..] && t == y[|b| + 1..];
  }

  /**
   The working table has one record per path. When no path holds a separator, the text does not depend on the order of
   the records exactly when the comparison tells all paths apart.
   */
  lemma TableOrderIrrelevantIff(a: seq<Change>, le: (Text, Text) -> bool)
    requires TotalPreorder(le) && (forall i :: 0 <= i < |a| ==> Plain(a[i].path))
    requires forall i, j :: 0 <= i < j < |a| ==> a[i].path != a[j].path
    ensures Told(multiset(a), ByPath(le)) <==>
      forall b :: multiset(b) == multiset(a) ==> PrintAll(Sort(b, ByPath(le))) == PrintAll(Sort(a, ByPath(le)))
  {
    PrintOrderIrrelevantIff(a, le);
    ToldIsCommuting(a, le);
  }

  lemma ToldIsCommuting(a: seq<Change>, le: (Text, Text) -> bool)
    requires forall i :: 0 <= i < |a| ==> Plain(a[i].path)
    requires forall i, j :: 0 <= i < j < |a| ==> a[i].path != a[j].path
    ensures Told(multiset(a), ByPath(le)) <==> UntoldCommute(a, le)
  {
    if UntoldCommute(a, le) {
      forall x, y | x in multiset(a) && y in multiset(a) && ByPath(le)(x, y) && ByPath(le)(y, x) ensures x == y {
        assert x in a && y in a && Untold(x, y, le);
        OnePathOneChange(a, x, y);
        if x.path != y.path { DistinctPathsNeverCommute(x, y); }
      }
    }
    if Told(multiset(a), ByPath(le)) {
      forall x, y | x in a && y in a && Untold(x, y, le) ensures x == y {
        assert x in multiset(a) && y in multiset(a) && ByPath(le)(x, y) && ByPath(le)(y, x);
      }
    }
  }

  lemma OnePathOneChange(a: seq<Change>, x: Change, y: Change)
    requires (forall i, j :: 0 <= i < j < |a| ==> a[i].path != a[j].path) && x in a && y in a
    requires forall i :: 0 <= i < |a| ==> Plain(a[i].path)
    ensures (x.path == y.path ==> x == y) && Plain(x.path) && Plain(y.path)
  {
    var i :| 0 <= i < |a| && a[i] == x;
    var j :| 0 <= j < |a| && a[j] == y;
  }

  /** So two records whose paths the comparison takes for equal print differently in the two orders. */
  lemma UntoldPathsMatter(x: Change, y: Change, le: (Text, Text) -> bool)
    requires TotalPreorder(le) && Untold(x, y, le) && Plain(x.path) && Plain(y.path) && x.path != y.path
    ensures PrintAll(Sort([x, y], ByPath(le))) != PrintAll(Sort([y, x], ByPath(le)))
  {
    PairSorted(x, y, le);
    PairSorted(y, x, le);
    DistinctPathsNeverCommute(x, y);
  }

  /** Of two changes to one path, a deletion and an empty file never commute. */
  lemma DeletionNeverCommutes(path: Text)
    ensures !Commute(Change(path, None, None, None, true), Change(path, Some([]), None, None, false))
  {
    var deleted, empty := Change(path, None, None, None, true), Change(path, Some([]), None, None, false);
    var s, t := Print(deleted) + BAR + Print(empty), Print(empty) + BAR + Print(deleted);
    assert s[|path| + 1] == 68 && t[|path| + 1] == 124;
  }

  /** In a list that has both for "a", the hash depends on which comes first. */
  lemma SamePathOrderMatters(le: (Text, Text) -> bool)
    requires TotalPreorder(le)
    ensures
      var deleted, empty := Change([97], None, None, None, true), Change([97], Some([]), None, None, false);
      StateHash([deleted, empty], le) != StateHash([empty, deleted], le)
  {
    var deleted, empty := Change([97], None, None, None, true), Change([97], Some([]), None, None, false);
    assert le([97], [97]);
    PairSorted(deleted, empty, le);
    PairSorted(empty, deleted, le);
    assert Print(deleted) == [97, 58, 68] && Print(empty) == [97, 58];
    DeletedFirst();
    EmptyFirst();
  }

  lemma DeletedFirst()
    ensures ToInt32(Polynomial([97, 58, 68] + BAR + [97, 58])) == -1462227414
  {
    assert [97, 58, 68] + BAR + [97, 58] == [97, 58, 68, 124, 97, 58];
    SixUnits([97, 58, 68, 124, 97, 58]);
  }

  lemma EmptyFirst()
    ensures ToInt32(Polynomial([97, 58] + BAR + [97, 58, 68])) == -1460586264
  {
    assert [97, 58] + BAR + [97, 58, 68] == [97, 58, 124, 97, 58, 68];
    SixUnits([97, 58, 124, 97, 58, 68]);
  }

  lemma PairSorted(a: Change, b: Change, le: (Text, Text) -> bool)
    requires le(a.path, b.path)
    ensures Sort([a, b], ByPath(le)) == [a, b]
    ensures PrintAll([a, b]) == Print(a) + BAR + Print(b)
  {
    assert [a, b][1..] == [b] && [b][1..] == [];
    assert Sort([b], ByPath(le)) == [b];
    assert ByPath(le)(a, b);
  }

  lemma SixUnits(s: Text)
    requires |s| == 6
    ensures
      var a: int, b: int, c: int, d: int, e: int, f: int := s[0], s[1], s[2], s[3], s[4], s[5];
      Polynomial(s) == ((((a * 31 + b) * 31 + c) * 31 + d) * 31 + e) * 31 + f
  {
    forall n | 0 <= n < 6 ensures Polynomial(s[..n + 1]) == 31 * Polynomial(s[..n]) + s[n] {
      assert s[..n + 1] == s[..n] + [s[n]];
      PolynomialAppend(s[..n], s[n]);
    }
    assert Polynomial(s[..1]) == s[0];
    assert Polynomial(s[..2]) == 31 * Polynomial(s[..1]) + s[1];
    assert Polynomial(s[..3]) == 31 * Polynomial(s[..2]) + s[2];
    assert Polynomial(s[..4]) == 31 * Polynomial(s[..3]) + s[3];
    assert Polynomial(s[..5]) == 31 * Polynomial(s[..4]) + s[4];
    assert s[..6] == s;
  }
}
