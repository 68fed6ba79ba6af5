/**
 The text edits of the compiler (packages/compiler/src/compiler.ts): edits are spliced in one after another, from right
 to left, into the text that the previous ones have changed. For disjoint edits this is the same as copying the
 untouched gaps and the replacement texts from left to right.
 */
module TextEdits {
  import opened Sorting

  datatype TextEdit = TextEdit(start: int, end: int, text: string)

  /** An offset as `slice` reads it: negative ones count from the end, and those outside are moved to the border. */
  function Offset(i: int, length: nat): (k: nat)
    ensures k <= length
    ensures 0 <= i <= length ==> k == i
  {
    if i < 0 then if length + i < 0 then 0 else length + i
    else if i > length then length else i
  }

  function Splice(content: string, edit: TextEdit): string {
    content[..Offset(edit.start, |content|)] + edit.text + content[Offset(edit.end, |content|)..]
  }

  predicate Later(a: TextEdit, b: TextEdit) {
    a.start >= b.start
  }

  predicate Earlier(a: TextEdit, b: TextEdit) {
    a.start <= b.start
  }

  function SpliceAll(content: string, edits: seq<TextEdit>): string {
    if edits == [] then content else Splice(SpliceAll(content, edits[..|edits| - 1]), edits[|edits| - 1])
  }

  /** In range, and no two edits overlap or start at the same place. */
  ghost predicate DisjointEdits(content: string, edits: seq<TextEdit>) {
    && (forall i :: 0 <= i < |edits| ==> 0 <= edits[i].start <= edits[i].end <= |content|)
    && (forall i, j :: 0 <= i < |edits| && 0 <= j < |edits| && i != j ==>
          edits[i].start != edits[j].start && (edits[i].end <= edits[j].start || edits[j].end <= edits[i].start))
  }

  /** From left to right, starting at offset `from`: each gap as it was, each edited stretch replaced. */
  function Assemble(content: string, edits: seq<TextEdit>, from: int): string
    decreases |edits|
  {
    if edits == [] then content[Offset(from, |content|)..]
    else Gap(content, from, edits[0].start) + edits[0].text + Assemble(content, edits[1..], edits[0].end)
  }

  function Gap(content: string, from: int, to: int): string {
    if 0 <= from <= to <= |content| then content[from..to] else ""
  }

  /** Ordered edits in range, from `from` on, that do not overlap. */
  ghost predicate Chain(content: string, edits: seq<TextEdit>, from: int)
    decreases |edits|
  {
    if edits == [] then 0 <= from <= |content|
    else 0 <= from <= edits[0].start <= edits[0].end && Chain(content, edits[1..], edits[0].end)
  }

  function Reversed(edits: seq<TextEdit>): (r: seq<TextEdit>)
    ensures |r| == |edits| && forall i :: 0 <= i < |r| ==> r[i] == edits[|edits| - 1 - i]
  {
    if edits == [] then [] else [edits[|edits| - 1]] + Reversed(edits[..|edits| - 1])
  }

  lemma {:induction false} ChainInRange(content: string, edits: seq<TextEdit>, from: int)
    requires Chain(content, edits, from)
    ensures 0 <= from <= |content|
    decreases |edits|
  {
    if edits == [] {
    } else {
      ChainInRange(content, edits[1..], edits[0].end);
    }
  }

  lemma SplitJoin(content: string, k: int, m: int, text: string, rest: string)
    requires 0 <= k <= m <= |content|
    ensures content[0..m] + text + rest == content[..k] + (content[k..m] + text + rest)
  {
    assert content[0..m] == content[..k] + content[k..m];
  }

  /** The assembly may start later, when what is skipped is copied as it is. */
  lemma AssembleFrom(content: string, edits: seq<TextEdit>, k: int)
    requires Chain(content, edits, k)
    ensures 0 <= k <= |content| && Assemble(content, edits, 0) == content[..k] + Assemble(content, edits, k)
  {
    ChainInRange(content, edits, k);
    if edits != [] {
      ChainInRange(content, edits[1..], edits[0].end);
      SplitJoin(content, k, edits[0].start, edits[0].text, Assemble(content, edits[1..], edits[0].end));
    } else {
      assert content == content[..k] + content[k..];
    }
  }

  /** Splicing the chain from right to left assembles it from left to right. */
  lemma {:induction false} SpliceAllAssembles(content: string, edits: seq<TextEdit>)
    requires Chain(content, Reversed(edits), 0)
    ensures SpliceAll(content, edits) == Assemble(content, Reversed(edits), 0)
  {
    if edits == [] {
    } else {
      var e, rest := edits[|edits| - 1], edits[..|edits| - 1];
      var later := Reversed(rest);
      assert Reversed(edits)[1..] == later;
      ChainInRange(content, later, e.end);
      ChainWeaker(content, later, e.end, 0);
      SpliceAllAssembles(content, rest);
      AssembleFrom(content, later, e.end);
      var so := SpliceAll(content, rest);
      assert so == content[..e.end] + Assemble(content, later, e.end);
      assert so[..e.start] == content[..e.start];
      assert so[e.end..] == Assemble(content, later, e.end);
    }
  }

  lemma ChainWeaker(content: string, edits: seq<TextEdit>, from: int, earlier: int)
    requires Chain(content, edits, from) && 0 <= earlier <= from
    ensures Chain(content, edits, earlier)
  {
  }

  lemma {:induction false} OrderedIsChain(content: string, edits: seq<TextEdit>, from: int)
    requires DisjointEdits(content, edits) && SortedBy(edits, Earlier) && 0 <= from <= |content|
    requires edits != [] ==> from <= edits[0].start
    ensures Chain(content, edits, from)
    decreases |edits|
  {
    if edits == [] {
    } else {
      var rest := edits[1..];
      assert rest != [] ==> Earlier(edits[0], edits[1]) && rest[0] == edits[1];
      OrderedIsChain(content, rest, edits[0].end);
    }
  }

  lemma DisjointPermuted(content: string, a: seq<TextEdit>, b: seq<TextEdit>)
    requires DisjointEdits(content, a) && multiset(a) == multiset(b)
    ensures DisjointEdits(content, b)
  {
    forall i | 0 <= i < |b| ensures 0 <= b[i].start <= b[i].end <= |content| {
      assert b[i] in multiset(a);
    }
    forall i, j | 0 <= i < j < |b|
      ensures b[i].start != b[j].start && (b[i].end <= b[j].start || b[j].end <= b[i].start)
    {
      TwoPlaces(a, b, i, j);
    }
  }

  lemma {:induction false} ReversedPermutes(edits: seq<TextEdit>)
    ensures multiset(Reversed(edits)) == multiset(edits)
  {
    if edits == [] {
    } else {
      var front, last := edits[..|edits| - 1], edits[|edits| - 1];
      ReversedPermutes(front);
      assert edits == front + [last];
      assert Reversed(edits) == [last] + Reversed(front);
    }
  }

  lemma StartsOrder()
    ensures TotalPreorder(Later) && TotalPreorder(Earlier)
  {
  }

  lemma DisjointTold(content: string, edits: seq<TextEdit>, le: (TextEdit, TextEdit) -> bool)
    requires DisjointEdits(content, edits) && (forall a, b :: le(a, b) && le(b, a) ==> a.start == b.start)
    ensures Told(multiset(edits), le)
  {
    forall x, y | x in multiset(edits) && y in multiset(edits) && le(x, y) && le(y, x) ensures x == y {
      var i :| 0 <= i < |edits| && edits[i] == x;
      var j :| 0 <= j < |edits| && edits[j] == y;
    }
  }

  /** Latest first, reversed, is earliest first. */
  lemma OppositeSorts(content: string, edits: seq<TextEdit>)
    requires DisjointEdits(content, edits)
    ensures Reversed(Sort(edits, Later)) == Sort(edits, Earlier)
  {
    StartsOrder();
    SortSorts(edits, Later);
    SortSorts(edits, Earlier);
    SortPermutes(edits, Later);
    SortPermutes(edits, Earlier);
    ReversedPermutes(Sort(edits, Later));
    DisjointTold(content, edits, Earlier);
    SortedUnique(Reversed(Sort(edits, Later)), Sort(edits, Earlier), Earlier);
  }

  /** Disjoint edits: the text as it was in the gaps, and the replacements in between. */
  lemma EditsCompose(content: string, edits: seq<TextEdit>)
    requires DisjointEdits(content, edits)
    ensures SpliceAll(content, Sort(edits, Later)) == Assemble(content, Sort(edits, Earlier), 0)
    ensures Chain(content, Sort(edits, Earlier), 0)
  {
    OppositeSorts(content, edits);
    StartsOrder();
    SortSorts(edits, Earlier);
    SortPermutes(edits, Earlier);
    DisjointPermuted(content, edits, Sort(edits, Earlier));
    OrderedIsChain(content, Sort(edits, Earlier), 0);
    SpliceAllAssembles(content, Sort(edits, Later));
  }

  /** The order in which disjoint edits are listed is of no concern. */
  lemma EditOrderIrrelevant(content: string, a: seq<TextEdit>, b: seq<TextEdit>)
    requires DisjointEdits(content, a) && multiset(a) == multiset(b)
    ensures SpliceAll(content, Sort(a, Later)) == SpliceAll(content, Sort(b, Later))
  {
    StartsOrder();
    DisjointTold(content, a, Later);
    SortForgetsOrder(a, b, Later);
  }

  /** An offset below zero counts from the end of the text as it is then; one too far out means the border. */
  lemma OffsetsFromTheEnd(content: string, start: int, end: int, text: string)
    ensures 0 < start <= |content| ==>
      Splice(content, TextEdit(start - |content| - 1, end, text)) == Splice(content, TextEdit(start - 1, end, text))
    ensures 0 < end <= |content| ==>
      Splice(content, TextEdit(start, end - |content| - 1, text)) == Splice(content, TextEdit(start, end - 1, text))
    ensures start < -|content| ==>
      Splice(content, TextEdit(start, end, text)) == Splice(content, TextEdit(0, end, text))
    ensures end < -|content| ==>
      Splice(content, TextEdit(start, end, text)) == Splice(content, TextEdit(start, 0, text))
    ensures start > |content| ==>
      Splice(content, TextEdit(start, end, text)) == Splice(content, TextEdit(|content|, end, text))
    ensures end > |content| ==>
      Splice(content, TextEdit(start, end, text)) == Splice(content, TextEdit(start, |content|, text))
  {
  }

  // ---------------------------------------------------------------- edits that start at one place

  predicate InRange(content: string, e: TextEdit) {
    0 <= e.start <= e.end <= |content|
  }

  function Skip(text: string, n: nat): string {
    text[Offset(n, |text|)..]
  }

  lemma SortPair(a: TextEdit, b: TextEdit)
    ensures Sort([a, b], Later) == if a.start >= b.start then [a, b] else [b, a]
  {
    assert [a, b][1..] == [b] && [b][1..] == [];
    assert Sort([b], Later) == [b];
    assert Insert(a, [b], Later) == if Later(a, b) then [a, b] else [b, a];
  }

  function SpliceBoth(content: string, a: TextEdit, b: TextEdit): string {
    Splice(Splice(content, a), b)
  }

  /** Two edits in the order in which the loop takes them. */
  lemma SplicePair(content: string, a: TextEdit, b: TextEdit)
    ensures SpliceAll(content, Sort([a, b], Later)) ==
      if a.start >= b.start then SpliceBoth(content, a, b) else SpliceBoth(content, b, a)
  {
    SortPair(a, b);
    forall x, y ensures SpliceAll(content, [x, y]) == SpliceBoth(content, x, y) {
      assert [x, y][..1] == [x] && [x][..0] == [];
      assert SpliceAll(content, [x]) == Splice(content, x);
    }
  }

  lemma SpliceInto(front: string, behind: string, e: TextEdit)
    requires e.start == |front| <= e.end
    ensures Splice(front + behind, e) == front + (e.text + Skip(behind, e.end - e.start))
  {
    assert (front + behind)[..e.start] == front;
    assert (front + behind)[Offset(e.end, |front + behind|)..] == Skip(behind, e.end - e.start);
    assert front + e.text + Skip(behind, e.end - e.start) == front + (e.text + Skip(behind, e.end - e.start));
  }

  /** The later splice changes what the earlier one has left at their common start. */
  lemma AtOnePlace(content: string, a: TextEdit, b: TextEdit)
    requires InRange(content, a) && InRange(content, b) && a.start == b.start
    ensures SpliceBoth(content, a, b) ==
      content[..a.start] + (b.text + Skip(a.text + content[a.end..], b.end - a.start))
  {
    assert Splice(content, a) == content[..a.start] + (a.text + content[a.end..]);
    SpliceInto(content[..a.start], a.text + content[a.end..], b);
  }

  /** Of two edits that start at one place, overlapping or not, the one listed last changes what the other has left. */
  lemma EqualStarts(content: string, a: TextEdit, b: TextEdit)
    requires InRange(content, a) && InRange(content, b) && a.start == b.start
    ensures SpliceAll(content, Sort([a, b], Later)) ==
      content[..a.start] + (b.text + Skip(a.text + content[a.end..], b.end - a.start))
  {
    SplicePair(content, a, b);
    AtOnePlace(content, a, b);
  }

  /** Inserting first and replacing what then stands there gives what replacing first and inserting then gives. */
  predicate Settles(insertion: string, replaced: string, replacement: string) {
    replacement + (insertion + replaced)[|replaced|..] == insertion + replacement
  }

  /** The condition on two edits that start at one place, of which one is an insertion. */
  predicate Commute(content: string, a: TextEdit, b: TextEdit)
    requires InRange(content, a) && InRange(content, b)
  {
    if a.start == a.end then Settles(a.text, content[b.start..b.end], b.text)
    else Settles(b.text, content[a.start..a.end], a.text)
  }

  lemma SkipReplaced(x: string, was: string, rest: string, y: string)
    ensures y + Skip(x + (was + rest), |was|) == y + (x + was)[|was|..] + rest
  {
    assert x + (was + rest) == (x + was) + rest;
    assert ((x + was) + rest)[|was|..] == (x + was)[|was|..] + rest;
    assert y + ((x + was)[|was|..] + rest) == y + (x + was)[|was|..] + rest;
  }

  lemma SkipNothing(x: string, y: string, rest: string)
    ensures x + Skip(y + rest, 0) == x + y + rest
  {
    assert Skip(y + rest, 0) == y + rest;
    assert x + (y + rest) == x + y + rest;
  }

  /** An insertion and a replacement at its place, in both orders. */
  lemma InsertAndReplace(content: string, a: TextEdit, b: TextEdit)
    requires InRange(content, a) && InRange(content, b) && a.start == a.end == b.start
    ensures var p, was, rest := a.start, content[b.start..b.end], content[b.end..];
      && SpliceBoth(content, a, b) == content[..p] + (b.text + (a.text + was)[|was|..] + rest)
      && SpliceBoth(content, b, a) == content[..p] + (a.text + b.text + rest)
  {
    AtOnePlace(content, a, b);
    AtOnePlace(content, b, a);
    assert content[a.end..] == content[b.start..b.end] + content[b.end..];
    SkipReplaced(a.text, content[b.start..b.end], content[b.end..], b.text);
    SkipNothing(a.text, b.text, content[b.end..]);
  }

  lemma SameMiddle(front: string, x: string, y: string, rest: string)
    ensures front + (x + rest) == front + (y + rest) <==> x == y
  {
    if front + (x + rest) == front + (y + rest) {
      var s, t := front + (x + rest), front + (y + rest);
      assert |x| == |y|;
      assert x == s[|front|..|front| + |x|] && y == t[|front|..|front| + |y|];
    }
  }

  /** Two disjoint edits may be listed in either order exactly when they start at different places or commute. */
  lemma TwoEditsIff(content: string, a: TextEdit, b: TextEdit)
    requires InRange(content, a) && InRange(content, b) && (a.end <= b.start || b.end <= a.start)
    ensures SpliceAll(content, Sort([a, b], Later)) == SpliceAll(content, Sort([b, a], Later)) <==>
      a.start != b.start || Commute(content, a, b)
  {
    SplicePair(content, a, b);
    SplicePair(content, b, a);
    if a.start == b.start {
      var ins, rep := if a.start == a.end then a else b, if a.start == a.end then b else a;
      var was := content[rep.start..rep.end];
      InsertAndReplace(content, ins, rep);
      SameMiddle(content[..a.start], rep.text + (ins.text + was)[|was|..], ins.text + rep.text, content[rep.end..]);
    }
  }

  /** Of two insertions at one place the one listed last comes first, so the order shows unless they commute. */
  lemma InsertionOrderMatters(content: string, a: TextEdit, b: TextEdit)
    requires InRange(content, a) && InRange(content, b) && a.start == a.end == b.start == b.end
    ensures SpliceAll(content, Sort([a, b], Later)) == content[..a.start] + (b.text + a.text + content[a.start..])
    ensures SpliceAll(content, Sort([a, b], Later)) == SpliceAll(content, Sort([b, a], Later)) <==>
      a.text + b.text == b.text + a.text
  {
    SplicePair(content, a, b);
    InsertAndReplace(content, b, a);
    TwoEditsIff(content, a, b);
    assert content[b.start..b.end] == "" && (a.text + "")[|""|..] == a.text;
  }

  /**
   An insertion listed before the replacement at its place is lost when it is no longer than what is replaced, and as
   much of the replaced text as it is long stays behind.
   */
  lemma InsertionLost(content: string, a: TextEdit, b: TextEdit)
    requires InRange(content, a) && InRange(content, b) && a.start == a.end == b.start
    requires |a.text| <= b.end - b.start
    ensures SpliceAll(content, Sort([a, b], Later)) ==
      content[..b.start] + (b.text + content[b.end - |a.text|..b.end] + content[b.end..])
  {
    SplicePair(content, a, b);
    LosesInsertion(content, a, b);
  }

  lemma LosesInsertion(content: string, a: TextEdit, b: TextEdit)
    requires InRange(content, a) && InRange(content, b) && a.start == a.end == b.start
    requires |a.text| <= b.end - b.start
    ensures SpliceBoth(content, a, b) ==
      content[..b.start] + (b.text + content[b.end - |a.text|..b.end] + content[b.end..])
  {
    var was := content[b.start..b.end];
    InsertAndReplace(content, a, b);
    EndOfReplaced(was, a.text);
    assert was[|was| - |a.text|..] == content[b.end - |a.text|..b.end];
  }

  lemma EndOfReplaced(was: string, x: string)
    requires |x| <= |was|
    ensures (x + was)[|was|..] == was[|was| - |x|..]
  {
  }

  lemma ReplacedLast()
    ensures SpliceBoth("abcdef", TextEdit(0, 0, "x"), TextEdit(0, 3, "y")) == "ycdef"
  {
    var a, b := TextEdit(0, 0, "x"), TextEdit(0, 3, "y");
    LosesInsertion("abcdef", a, b);
    assert "abcdef"[..0] == "" && "abcdef"[2..3] == "c" && "abcdef"[3..] == "def";
  }

  lemma InsertedLast()
    ensures SpliceBoth("abcdef", TextEdit(0, 3, "y"), TextEdit(0, 0, "x")) == "xydef"
  {
    var a, b := TextEdit(0, 0, "x"), TextEdit(0, 3, "y");
    InsertAndReplace("abcdef", a, b);
    assert "abcdef"[..0] == "" && "abcdef"[3..] == "def";
  }

  /** Such a pair: the insertion of "x" is lost in one order and not in the other. */
  lemma LostInsertion()
    ensures var a, b := TextEdit(0, 0, "x"), TextEdit(0, 3, "y");
      && SpliceAll("abcdef", Sort([a, b], Later)) == "ycdef"
      && SpliceAll("abcdef", Sort([b, a], Later)) == "xydef"
  {
    SplicePair("abcdef", TextEdit(0, 0, "x"), TextEdit(0, 3, "y"));
    SplicePair("abcdef", TextEdit(0, 3, "y"), TextEdit(0, 0, "x"));
    ReplacedLast();
    InsertedLast();
  }

  /** An insertion and a replacement of a nonempty range that commute: what is inserted is what is deleted. */
  lemma ReplacementsMayCommute(text: string)
    ensures Commute(text, TextEdit(0, 0, text), TextEdit(0, |text|, ""))
  {
    assert text[0..|text|] == text && (text + text)[|text|..] == text;
    assert "" + text == text + "" == text;
  }

  // ---------------------------------------------------------------- what the assembly holds where

  /** By how much the edits that end at or before offset `i` move it. */
  function Shift(edits: seq<TextEdit>, i: int): int {
    if edits == [] then 0
    else (if edits[0].end <= i then |edits[0].text| - (edits[0].end - edits[0].start) else 0) + Shift(edits[1..], i)
  }

  predicate Untouched(edits: seq<TextEdit>, i: int) {
    forall k :: 0 <= k < |edits| ==> i < edits[k].start || edits[k].end <= i
  }

  lemma {:induction false} LaterShiftNothing(content: string, edits: seq<TextEdit>, from: int, i: int)
    requires Chain(content, edits, from) && i < from
    ensures Shift(edits, i) == 0
    decreases |edits|
  {
    if edits == [] {
    } else {
      LaterShiftNothing(content, edits[1..], edits[0].end, i);
    }
  }

  /** The character at offset `i` is found in the assembly from `from` on, moved by the edits before it. */
  ghost predicate Survives(content: string, edits: seq<TextEdit>, from: int, i: int)
    requires 0 <= i < |content|
  {
    var at := i - from + Shift(edits, i);
    0 <= at < |Assemble(content, edits, from)| && Assemble(content, edits, from)[at] == content[i]
  }

  lemma InFirstGap(content: string, edits: seq<TextEdit>, from: int, i: int)
    requires Chain(content, edits, from) && edits != [] && from <= i < edits[0].start
    ensures 0 <= i < |content| && Survives(content, edits, from, i)
  {
    var e, rest := edits[0], edits[1..];
    ChainInRange(content, rest, e.end);
    LaterShiftNothing(content, rest, e.end, i);
    var gap, tail := Gap(content, from, e.start), Assemble(content, rest, e.end);
    assert (gap + e.text + tail)[i - from] == gap[i - from];
  }

  lemma BehindFirst(content: string, edits: seq<TextEdit>, from: int, i: int)
    requires Chain(content, edits, from) && edits != [] && edits[0].end <= i < |content|
    requires Survives(content, edits[1..], edits[0].end, i)
    ensures Survives(content, edits, from, i)
  {
    var e, rest := edits[0], edits[1..];
    ChainInRange(content, rest, e.end);
    Joined(Gap(content, from, e.start), e.text, Assemble(content, rest, e.end), i - e.end + Shift(rest, i));
  }

  lemma Joined(a: string, b: string, c: string, i: nat)
    requires i < |c|
    ensures |a + b + c| == |a| + |b| + |c| && (a + b + c)[|a| + |b| + i] == c[i]
  {
  }

  /** Characters that no edit covers survive. */
  lemma {:induction false} UntouchedSurvives(content: string, edits: seq<TextEdit>, from: int, i: int)
    requires Chain(content, edits, from) && from <= i < |content| && Untouched(edits, i)
    ensures Survives(content, edits, from, i)
    decreases |edits|
  {
    if edits == [] {
    } else {
      if i < edits[0].start {
        InFirstGap(content, edits, from, i);
      } else {
        var rest := edits[1..];
        assert forall k :: 0 <= k < |rest| ==> rest[k] == edits[k + 1];
        UntouchedSurvives(content, rest, edits[0].end, i);
        BehindFirst(content, edits, from, i);
      }
    }
  }

  // ---------------------------------------------------------------- the loop

  method ApplyTextEdits(content: string, edits: seq<TextEdit>) returns (next: string)
    ensures next == SpliceAll(content, Sort(edits, Later))
    ensures DisjointEdits(content, edits) ==> next == Assemble(content, Sort(edits, Earlier), 0)
  {
    if |edits| == 0 {
      assert edits == [] && Sort(edits, Later) == [];
      next := content;
    } else {
      var sorted := Sort(edits, Later);
      next := content;
      for i := 0 to |sorted|
        invariant next == SpliceAll(content, sorted[..i])
      {
        var edit := sorted[i];
        next := next[..Offset(edit.start, |next|)] + edit.text + next[Offset(edit.end, |next|)..];
        assert sorted[..i + 1][..i] == sorted[..i];
      }
      assert sorted[..|sorted|] == sorted;
    }
    if DisjointEdits(content, edits) { EditsCompose(content, edits); }
  }
}
