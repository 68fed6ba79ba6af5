/**
 What the text that is hashed tells about a working state. A revision is found again by its hash, so two states with one
 text share a build. The text holds of each change the path and what is hashed for it, with separators that both may
 contain: this module says exactly when two states print alike.
 */
module WorkingStateText {
  import opened Wrappers
  import opened Sorting
  import opened WorkingStateHash
  import opened WorkingStateOrder

  /** What is printed of a change. */
  datatype Key = Key(path: Text, payload: Text)

  function KeyOf(change: Change): Key {
    Key(change.path, Payload(change))
  }

  function Keys(changes: seq<Change>): (keys: seq<Key>)
    ensures |keys| == |changes| && forall i :: 0 <= i < |keys| ==> keys[i] == KeyOf(changes[i])
  {
    if changes == [] then [] else [KeyOf(changes[0])] + Keys(changes[1..])
  }

  function PrintKey(key: Key): Text {
    key.path + COLON + key.payload
  }

  function PrintKeys(keys: seq<Key>): Text {
    if keys == [] then []
    else if |keys| == 1 then PrintKey(keys[0])
    else PrintKey(keys[0]) + BAR + PrintKeys(keys[1..])
  }

  lemma {:induction false} PrintIsOfKeys(changes: seq<Change>)
    ensures PrintAll(changes) == PrintKeys(Keys(changes))
  {
    if changes == [] {
    } else {
      assert Keys(changes)[1..] == Keys(changes[1..]);
      PrintIsOfKeys(changes[1..]);
    }
  }

  /**
   What is hashed for a change: "D" for a deletion, whatever else it holds, otherwise the first of content, blob id and
   download URL that it has, behind its path and a colon.
   */
  lemma PrintedOf(path: Text, x: Text, content: Option<Text>, blobId: Option<Text>, url: Option<Text>)
    ensures PrintAll([Change(path, content, blobId, url, true)]) == path + [58, 68]
    ensures PrintAll([Change(path, Some(x), blobId, url, false)]) == path + [58] + x
    ensures PrintAll([Change(path, None, Some(x), url, false)]) == path + [58] + x
    ensures PrintAll([Change(path, None, None, Some(x), false)]) == path + [58] + x
    ensures PrintAll([Change(path, None, None, None, false)]) == path + [58]
  {
    assert path + [58, 68] == path + [58] + [68];
    assert path + [58] + [] == path + [58];
  }

  /** Two changes to one path print alike exactly when the same is hashed for them: a deletion and the content "D". */
  lemma SamePayloadIff(a: Change, b: Change)
    requires a.path == b.path
    ensures PrintAll([a]) == PrintAll([b]) <==> Payload(a) == Payload(b)
  {
    SameBehind(a.path + COLON, Payload(a), Payload(b));
  }

  // ---------------------------------------------------------------- payloads that look like several changes

  /** A bar at `i` and a colon at `j` with a plain path between them: where another change seems to begin. */
  predicate BreakAt(payload: Text, i: nat, j: nat) {
    i < j < |payload| && payload[i] == BAR[0] && payload[j] == COLON[0] && Plain(payload[i + 1..j])
  }

  predicate Splits(payload: Text) {
    exists i: nat, j: nat | i < j < |payload| :: BreakAt(payload, i, j)
  }

  predicate PlainPaths(keys: seq<Key>) {
    forall i :: 0 <= i < |keys| ==> Plain(keys[i].path)
  }

  /** Plain paths, and no payload that looks like several changes. */
  predicate Canonical(keys: seq<Key>) {
    PlainPaths(keys) && forall i :: 0 <= i < |keys| ==> !Splits(keys[i].payload)
  }

  /** What is printed behind the first change. */
  function Tail(keys: seq<Key>): Text
    requires keys != []
  {
    if |keys| == 1 then [] else BAR + PrintKeys(keys[1..])
  }

  lemma PrintFirst(keys: seq<Key>)
    requires keys != []
    ensures PrintKeys(keys) == keys[0].path + COLON + (keys[0].payload + Tail(keys))
  {
    var k := keys[0];
    assert k.path + COLON + k.payload + [] == k.path + COLON + k.payload;
    Associate(k.path + COLON, k.payload, Tail(keys));
    if |keys| > 1 { Associate(PrintKey(k), BAR, PrintKeys(keys[1..])); }
  }

  lemma Associate(a: Text, b: Text, c: Text)
    ensures a + b + c == a + (b + c)
  {
  }

  lemma PrintsNothing(keys: seq<Key>)
    ensures PrintKeys(keys) == [] <==> keys == []
  {
    if keys != [] { PrintFirst(keys); }
  }

  lemma BarBehind(text: Text, behind: Text)
    requires behind != [] && behind[0] == BAR[0]
    ensures (text + behind)[|text|] == BAR[0]
  {
  }

  lemma NoBarBefore(path: Text, rest: Text)
    requires Plain(path)
    ensures forall k :: 0 <= k <= |path| ==> (path + COLON + rest)[k] != BAR[0]
  {
    var t := path + COLON + rest;
    assert forall k :: 0 <= k < |path| ==> t[k] == path[k];
  }

  /** When a text that goes on with a bar or ends begins with a plain path and a colon, it holds both. */
  lemma PathWithin(text: Text, behind: Text, path: Text, rest: Text)
    requires Plain(path) && text + behind == path + COLON + rest
    requires behind == [] || behind[0] == BAR[0]
    ensures |path| < |text| && text[..|path|] == path && text[|path|] == COLON[0]
  {
    var whole := text + behind;
    assert whole[|path|] == COLON[0] && whole[..|path|] == path;
    NoBarBefore(path, rest);
    if behind != [] { BarBehind(text, behind); }
    assert text == whole[..|text|];
  }

  lemma BreakInside(payload: Text, i: nat, behind: Text, path: Text, rest: Text)
    requires i < |payload| && payload[i] == BAR[0] && Plain(path)
    requires payload[i + 1..] + behind == path + COLON + rest
    requires behind == [] || behind[0] == BAR[0]
    ensures BreakAt(payload, i, i + 1 + |path|)
  {
    PathWithin(payload[i + 1..], behind, path, rest);
    assert payload[i + 1..i + 1 + |path|] == payload[i + 1..][..|path|];
  }

  /** Lists of plain paths that print alike begin with the same path. */
  lemma SamePath(a: seq<Key>, b: seq<Key>)
    requires a != [] && b != [] && PlainPaths(a) && PlainPaths(b) && PrintKeys(a) == PrintKeys(b)
    ensures a[0].path == b[0].path && a[0].payload + Tail(a) == b[0].payload + Tail(b)
  {
    PrintFirst(a);
    PrintFirst(b);
    FirstColon(a[0].path, a[0].payload + Tail(a), b[0].path, b[0].payload + Tail(b));
  }

  /** A payload that begins with a shorter one and what is printed behind it looks like several changes. */
  lemma LongerSplits(p: Text, a: seq<Key>, q: Text, v: Text)
    requires a != [] && PlainPaths(a) && |p| < |q| && (v == [] || v[0] == BAR[0])
    requires p + Tail(a) == q + v
    ensures Splits(q)
  {
    Overlap(p, Tail(a), q, v);
    PrintFirst(a[1..]);
    assert Tail(a)[1..] == PrintKeys(a[1..]);
    BreakInside(q, |p|, v, a[1].path, a[1].payload + Tail(a[1..]));
  }

  /** No payload of a canonical list begins with the payload of the first change of a list that prints alike. */
  lemma CanonicalFirst(a: seq<Key>, b: seq<Key>)
    requires a != [] && b != [] && PlainPaths(a) && Canonical(b) && PrintKeys(a) == PrintKeys(b)
    ensures a[0].path == b[0].path && a[0].payload + Tail(a) == b[0].payload + Tail(b)
    ensures |a[0].payload| >= |b[0].payload|
  {
    SamePath(a, b);
    if |a[0].payload| < |b[0].payload| {
      LongerSplits(a[0].payload, a, b[0].payload, Tail(b));
    }
  }

  lemma Overlap(p: Text, u: Text, q: Text, v: Text)
    requires p + u == q + v && |p| < |q|
    ensures u != [] && u[0] == q[|p|] && u[1..] == q[|p| + 1..] + v
  {
    assert u == (p + u)[|p|..] == (q + v)[|p|..] == q[|p|..] + v;
    assert q[|p|..] == [q[|p|]] + q[|p| + 1..];
  }

  /** Canonical lists that print alike begin with the same change and go on alike. */
  lemma SameFirst(a: seq<Key>, b: seq<Key>)
    requires a != [] && b != [] && Canonical(a) && Canonical(b) && PrintKeys(a) == PrintKeys(b)
    ensures a[0] == b[0] && Tail(a) == Tail(b)
  {
    CanonicalFirst(a, b);
    CanonicalFirst(b, a);
    SameParts(a[0].payload, Tail(a), b[0].payload, Tail(b));
  }

  lemma CanonicalTail(a: seq<Key>)
    requires a != [] && Canonical(a)
    ensures Canonical(a[1..])
  {
  }

  /** Canonical lists are told apart by what they print. */
  lemma {:induction false} CanonicalInjective(a: seq<Key>, b: seq<Key>)
    requires Canonical(a) && Canonical(b) && PrintKeys(a) == PrintKeys(b)
    ensures a == b
    decreases |a|
  {
    PrintsNothing(a);
    PrintsNothing(b);
    if a == [] || b == [] {
    } else {
      SameFirst(a, b);
      if |a| > 1 && |b| > 1 {
        assert PrintKeys(a[1..]) == Tail(a)[1..] == Tail(b)[1..] == PrintKeys(b[1..]);
        CanonicalTail(a);
        CanonicalTail(b);
        CanonicalInjective(a[1..], b[1..]);
      }
      assert a == [a[0]] + a[1..] && b == [b[0]] + b[1..];
    }
  }

  lemma SameParts(p: Text, u: Text, q: Text, v: Text)
    requires p + u == q + v && |p| == |q|
    ensures p == q && u == v
  {
    assert p == (p + u)[..|p|] && q == (q + v)[..|q|];
    assert u == (p + u)[|p|..] && v == (q + v)[|q|..];
  }

  // ---------------------------------------------------------------- every list prints like a canonical one

  lemma ConsPrints(k: Key, keys: seq<Key>)
    ensures PrintKeys([k] + keys) == if keys == [] then PrintKey(k) else PrintKey(k) + BAR + PrintKeys(keys)
  {
    assert ([k] + keys)[1..] == keys;
  }

  /** The two changes that a payload looks like. */
  lemma SplitKey(k: Key) returns (k1: Key, k2: Key)
    requires Splits(k.payload)
    ensures PrintKey(k1) + BAR + PrintKey(k2) == PrintKey(k)
    ensures k1.path == k.path && Plain(k2.path) && |k1.payload| < |k.payload|
  {
    var i: nat, j: nat :| i < j < |k.payload| && BreakAt(k.payload, i, j);
    k1, k2 := Key(k.path, k.payload[..i]), Key(k.payload[i + 1..j], k.payload[j + 1..]);
    assert k.payload == k.payload[..i] + (BAR + PrintKey(k2));
    Associate(k.path + COLON, k.payload[..i], BAR + PrintKey(k2));
    Associate(PrintKey(k1), BAR, PrintKey(k2));
  }

  lemma ReplaceFirst(k: Key, k1: Key, k2: Key, rest: seq<Key>)
    requires PrintKey(k1) + BAR + PrintKey(k2) == PrintKey(k)
    ensures PrintKeys([k1, k2] + rest) == PrintKeys([k] + rest)
  {
    assert [k1, k2] + rest == [k1] + ([k2] + rest);
    ConsPrints(k1, [k2] + rest);
    ConsPrints(k2, rest);
    ConsPrints(k, rest);
    if rest != [] {
      Associate(PrintKey(k1) + BAR, PrintKey(k2), BAR + PrintKeys(rest));
      Associate(PrintKey(k2), BAR, PrintKeys(rest));
      Associate(PrintKey(k), BAR, PrintKeys(rest));
    }
  }

  /** One payload that looks like two changes, taken apart. */
  lemma SplitFirst(a: seq<Key>) returns (b: seq<Key>)
    requires a != [] && PlainPaths(a) && Splits(a[0].payload)
    ensures |b| == |a| + 1 && PlainPaths(b) && PrintKeys(b) == PrintKeys(a) && |b[0].payload| < |a[0].payload|
  {
    var k1, k2 := SplitKey(a[0]);
    b := [k1, k2] + a[1..];
    ReplaceFirst(a[0], k1, k2, a[1..]);
    assert a == [a[0]] + a[1..];
  }

  lemma {:induction false} Canonize(a: seq<Key>) returns (b: seq<Key>)
    requires PlainPaths(a)
    ensures Canonical(b) && PrintKeys(b) == PrintKeys(a) && |b| >= |a|
    ensures a != [] && Splits(a[0].payload) ==> |b| > |a|
    decreases |PrintKeys(a)|, if a == [] then 0 else |a[0].payload|
  {
    if a == [] {
      b := [];
    } else if Splits(a[0].payload) {
      var c := SplitFirst(a);
      b := Canonize(c);
    } else {
      PrintFirst(a);
      var c := Canonize(a[1..]);
      PrintsNothing(c);
      PrintsNothing(a[1..]);
      ConsPrints(a[0], c);
      b := [a[0]] + c;
    }
  }

  // ---------------------------------------------------------------- exactly when texts collide

  /** Another state with plain paths prints like one change exactly when its payload holds a bar, a path and a colon. */
  lemma SingletonCollides(k: Key)
    requires Plain(k.path)
    ensures (exists b: seq<Key> :: PlainPaths(b) && b != [k] && PrintKeys(b) == PrintKeys([k])) <==> Splits(k.payload)
  {
    if Splits(k.payload) {
      var b := Canonize([k]);
      assert b != [k];
    }
    forall b: seq<Key> | !Splits(k.payload) && PlainPaths(b) && PrintKeys(b) == PrintKeys([k]) ensures b == [k] {
      var c := Canonize(b);
      CanonicalInjective(c, [k]);
      PrintsNothing(b);
      PrintsNothing([k]);
      SamePath(b, [k]);
      assert b == [b[0]] && b[0].payload + [] == b[0].payload && k.payload + [] == k.payload;
    }
  }

  /** Among lists of plain paths, the canonical one is the only canonical one with its print. */
  lemma CanonicalIff(a: seq<Key>)
    requires PlainPaths(a)
    ensures Canonical(a) <==> forall b :: Canonical(b) && PrintKeys(b) == PrintKeys(a) ==> b == a
  {
    forall b | Canonical(a) && Canonical(b) && PrintKeys(b) == PrintKeys(a) ensures b == a {
      CanonicalInjective(a, b);
    }
    var c := Canonize(a);
  }

  /** Whatever the paths of the other state: one change is alone with its print exactly when it holds no colon. */
  lemma ColonCollides(k: Key)
    ensures (exists b: seq<Key> :: b != [k] && PrintKeys(b) == PrintKeys([k])) <==>
      COLON[0] in k.path || COLON[0] in k.payload
  {
    if COLON[0] in k.path {
      var other := EarlierColon(k);
      assert [other] != [k];
    } else if COLON[0] in k.payload {
      var other := LaterColon(k);
      assert [other] != [k];
    } else {
      forall b | PrintKeys(b) == PrintKeys([k]) ensures b == [k] {
        OneColon(b, k);
      }
    }
  }

  lemma EarlierColon(k: Key) returns (other: Key)
    requires COLON[0] in k.path
    ensures other != k && PrintKeys([other]) == PrintKeys([k])
  {
    var i :| 0 <= i < |k.path| && k.path[i] == COLON[0];
    other := Key(k.path[..i], k.path[i + 1..] + (COLON + k.payload));
    assert k.path == k.path[..i] + COLON + k.path[i + 1..] && |other.path| < |k.path|;
    Associate(k.path[..i] + COLON, k.path[i + 1..], COLON + k.payload);
    Associate(k.path, COLON, k.payload);
  }

  lemma LaterColon(k: Key) returns (other: Key)
    requires COLON[0] in k.payload
    ensures other != k && PrintKeys([other]) == PrintKeys([k])
  {
    var i :| 0 <= i < |k.payload| && k.payload[i] == COLON[0];
    other := Key(k.path + COLON + k.payload[..i], k.payload[i + 1..]);
    assert k.payload == k.payload[..i] + (COLON + k.payload[i + 1..]) && |other.path| > |k.path|;
    Associate(k.path + COLON, k.payload[..i], COLON + k.payload[i + 1..]);
    Associate(other.path, COLON, k.payload[i + 1..]);
  }

  lemma TwoColons(b: seq<Key>)
    requires |b| > 1
    ensures COLON[0] in b[0].payload + Tail(b)
  {
    PrintFirst(b[1..]);
    assert (b[0].payload + Tail(b))[|b[0].payload| + 1 + |b[1].path|] == COLON[0];
  }

  /** A text with a single colon is that of one change. */
  lemma OneColon(b: seq<Key>, k: Key)
    requires COLON[0] !in k.path && COLON[0] !in k.payload && PrintKeys(b) == PrintKeys([k])
    ensures b == [k]
  {
    PrintsNothing(b);
    PrintsNothing([k]);
    PrintFirst(b);
    PrintFirst([k]);
    assert k.payload + Tail([k]) == k.payload;
    OnlyColon(k.path, k.payload, b[0].path, b[0].payload + Tail(b));
    if |b| > 1 { TwoColons(b); }
    assert b == [b[0]] && b[0].payload + [] == b[0].payload;
  }

  lemma OnlyColon(p: Text, v: Text, q: Text, w: Text)
    requires COLON[0] !in p && COLON[0] !in v && p + COLON + v == q + COLON + w
    ensures p == q && v == w
  {
    var t := p + COLON + v;
    assert forall i :: 0 <= i < |t| && t[i] == COLON[0] ==> i == |p|;
    assert (q + COLON + w)[|q|] == COLON[0];
    assert p == t[..|p|] && q == t[..|q|];
    assert v == t[|p| + 1..] && w == t[|q| + 1..];
  }

  // ---------------------------------------------------------------- whole working states

  function ByKeyPath(le: (Text, Text) -> bool): (Key, Key) -> bool {
    (a: Key, b: Key) => le(a.path, b.path)
  }

  lemma {:induction false} InsertKeys(x: Change, s: seq<Change>, le: (Text, Text) -> bool)
    ensures Keys(Insert(x, s, ByPath(le))) == Insert(KeyOf(x), Keys(s), ByKeyPath(le))
  {
    if s == [] || le(x.path, s[0].path) {
      assert Keys([x] + s) == [KeyOf(x)] + Keys(s);
    } else {
      InsertKeys(x, s[1..], le);
      assert Keys(s)[1..] == Keys(s[1..]);
      assert Keys([s[0]] + Insert(x, s[1..], ByPath(le))) == [KeyOf(s[0])] + Keys(Insert(x, s[1..], ByPath(le)));
    }
  }

  lemma {:induction false} SortKeys(s: seq<Change>, le: (Text, Text) -> bool)
    ensures Keys(Sort(s, ByPath(le))) == Sort(Keys(s), ByKeyPath(le))
  {
    if s == [] {
    } else {
      SortKeys(s[1..], le);
      assert Keys(s)[1..] == Keys(s[1..]);
      InsertKeys(s[0], Sort(s[1..], ByPath(le)), le);
    }
  }

  lemma KeyPathPreorder(le: (Text, Text) -> bool)
    requires TotalPreorder(le)
    ensures TotalPreorder(ByKeyPath(le))
  {
    var f := ByKeyPath(le);
    forall a, b ensures f(a, b) || f(b, a) {
      assert le(a.path, b.path) || le(b.path, a.path);
    }
    forall a, b, c | f(a, b) && f(b, c) ensures f(a, c) {
      assert le(a.path, b.path) && le(b.path, c.path);
    }
  }

  lemma CanonicalSorted(keys: seq<Key>, le: (Text, Text) -> bool)
    requires Canonical(keys)
    ensures Canonical(Sort(keys, ByKeyPath(le)))
  {
    var sorted := Sort(keys, ByKeyPath(le));
    SortPermutes(keys, ByKeyPath(le));
    forall i | 0 <= i < |sorted| ensures Plain(sorted[i].path) && !Splits(sorted[i].payload) {
      assert sorted[i] in multiset(sorted);
      assert sorted[i] in keys;
    }
  }

  /**
   When no path holds a separator, no payload looks like several changes and the comparison tells the paths apart, two
   working states have one text exactly when they hold the same payloads at the same paths.
   */
  lemma StatesToldApart(a: seq<Change>, b: seq<Change>, le: (Text, Text) -> bool)
    requires TotalPreorder(le) && Canonical(Keys(a)) && Canonical(Keys(b))
    requires Told(multiset(Keys(a)), ByKeyPath(le))
    ensures PrintAll(Sort(a, ByPath(le))) == PrintAll(Sort(b, ByPath(le))) <==>
      multiset(Keys(a)) == multiset(Keys(b))
  {
    var p, q := Sort(Keys(a), ByKeyPath(le)), Sort(Keys(b), ByKeyPath(le));
    SortKeys(a, le);
    SortKeys(b, le);
    PrintIsOfKeys(Sort(a, ByPath(le)));
    PrintIsOfKeys(Sort(b, ByPath(le)));
    if PrintKeys(p) == PrintKeys(q) {
      CanonicalSorted(Keys(a), le);
      CanonicalSorted(Keys(b), le);
      CanonicalInjective(p, q);
      SortPermutes(Keys(a), ByKeyPath(le));
      SortPermutes(Keys(b), ByKeyPath(le));
    }
    if multiset(Keys(a)) == multiset(Keys(b)) {
      KeyPathPreorder(le);
      SortForgetsOrder(Keys(a), Keys(b), ByKeyPath(le));
    }
  }

  /** Deleting a file and giving it the content "D" cannot be told apart. */
  lemma DeletionLooksLikeContent(path: Text, le: (Text, Text) -> bool, a: Change, b: Change)
    requires a == Change(path, None, None, None, true) && b == Change(path, Some(LETTER_D), None, None, false)
    ensures a != b && StateHash([a], le) == StateHash([b], le)
  {
    assert [a][1..] == [] && [b][1..] == [];
    assert Sort([a], ByPath(le)) == [a] && Sort([b], ByPath(le)) == [b];
  }

  function Edited(path: Text, content: Text): Change {
    Change(path, Some(content), None, None, false)
  }

  /** Any two changes hash like one, to a file whose content holds the text of the second. */
  lemma TwoHashLikeOne(x: Change, y: Change, le: (Text, Text) -> bool)
    requires le(x.path, y.path)
    ensures StateHash([Edited(x.path, Payload(x) + (BAR + Print(y)))], le) == StateHash([x, y], le)
  {
    var one := Edited(x.path, Payload(x) + (BAR + Print(y)));
    PairSorted(x, y, le);
    assert [one][1..] == [] && Sort([one], ByPath(le)) == [one];
    Regroup(x.path + COLON, Payload(x), BAR, Print(y));
  }

  /** The content "x|b:y" of a file "a", and the contents "x" and "y" of the files "a" and "b". */
  lemma SeparatorsCollide(le: (Text, Text) -> bool)
    requires le([97], [98])
    ensures StateHash([Edited([97], [120, 124, 98, 58, 121])], le) ==
      StateHash([Edited([97], [120]), Edited([98], [121])], le)
  {
    TwoHashLikeOne(Edited([97], [120]), Edited([98], [121]), le);
    var y: Text := [121];
    assert Print(Edited([98], y)) == [98, 58, 121];
    assert [120] + (BAR + [98, 58, 121]) == [120, 124, 98, 58, 121];
  }
}
