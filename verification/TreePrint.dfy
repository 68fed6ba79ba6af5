/**
 The text that hashTree hashes: one line `type:name:id` per entry, joined by newlines. A name that holds a newline can
 look like the end of one entry and the beginning of another; this module says exactly when.
 */
module TreePrint {
  import opened Decimals

  /** An entry of a stored tree; ids are positions in the store's tables, printed in decimal. */
  datatype Entry =
    | FileEntry(name: string, blobId: nat)
    | DirEntry(name: string, treeId: nat)

  function Ref(e: Entry): nat {
    if e.FileEntry? then e.blobId else e.treeId
  }

  function Kind(e: Entry): string {
    if e.FileEntry? then "file" else "directory"
  }

  function PrintEntry(e: Entry): string {
    Kind(e) + ":" + e.name + ":" + Decimal(Ref(e))
  }

  function PrintLines(entries: seq<Entry>): string {
    if entries == [] then ""
    else if |entries| == 1 then PrintEntry(entries[0])
    else PrintEntry(entries[0]) + "\n" + PrintLines(entries[1..])
  }

  // ---------------------------------------------------------------- names that look like several entries

  predicate StartsWith(s: string, prefix: string) {
    |s| >= |prefix| && s[..|prefix|] == prefix
  }

  /** `:<id>` from `i` on, and a newline at `j` right behind it: what the end of an entry looks like. */
  predicate BreakAt(name: string, i: nat, j: nat) {
    i < j < |name| && name[i] == ':' && name[j] == '\n' && IsDecimal(name[i + 1..j])
  }

  predicate IsKind(s: string) {
    s == "file" || s == "directory"
  }

  predicate SplitAt(name: string, i: nat, j: nat) {
    BreakAt(name, i, j) && (StartsWith(name[j + 1..], "file:") || StartsWith(name[j + 1..], "directory:"))
  }

  predicate MergeAt(name: string, i: nat, j: nat) {
    BreakAt(name, i, j) && IsKind(name[j + 1..])
  }

  /** The name holds the end of an entry and the beginning of another. */
  predicate Splits(name: string) {
    exists i: nat, j: nat | i < j < |name| :: SplitAt(name, i, j)
  }

  /** The name ends with the end of an entry and the type of another, whose colon is the one behind the name. */
  predicate Merges(name: string) {
    exists i: nat, j: nat | i < j < |name| :: MergeAt(name, i, j)
  }

  predicate NameSafe(name: string) {
    !Splits(name) && !Merges(name)
  }

  predicate NameOk(e: Entry) {
    NameSafe(e.name)
  }

  lemma NoNewlineIsSafe(name: string)
    requires '\n' !in name
    ensures NameSafe(name)
  {
  }

  // ---------------------------------------------------------------- texts between separators

  /** The text before the first occurrence of a separator is determined by the whole. */
  lemma SplitAtFirst(a: string, b: string, s: string, t: string, sep: char)
    requires sep !in a && sep !in b && a + [sep] + s == b + [sep] + t
    ensures a == b && s == t
  {
    var x, y := a + [sep] + s, b + [sep] + t;
    assert x[|a|] == sep && y[|b|] == sep;
    assert a == x[..|a|] && b == y[..|b|];
    assert s == x[|a| + 1..] && t == y[|b| + 1..];
  }

  /** The text after the last occurrence of a separator is determined by the whole. */
  lemma SplitAtLast(a: string, b: string, s: string, t: string, sep: char)
    requires sep !in s && sep !in t && a + [sep] + s == b + [sep] + t
    ensures a == b && s == t
  {
    var x, y := a + [sep] + s, b + [sep] + t;
    assert x[|a|] == sep && y[|b|] == sep;
    assert a == x[..|a|] && b == y[..|b|];
    assert s == x[|a| + 1..] && t == y[|b| + 1..];
  }

  lemma PrintEntryInjective(e: Entry, f: Entry)
    requires PrintEntry(e) == PrintEntry(f)
    ensures e == f
  {
    var re, rf := Decimal(Ref(e)), Decimal(Ref(f));
    DecimalDigits(Ref(e));
    DecimalDigits(Ref(f));
    assert PrintEntry(e) == (Kind(e) + ":" + e.name) + [':'] + re;
    assert PrintEntry(f) == (Kind(f) + ":" + f.name) + [':'] + rf;
    SplitAtLast(Kind(e) + ":" + e.name, Kind(f) + ":" + f.name, re, rf, ':');
    DecimalInjective(Ref(e), Ref(f));
    assert (Kind(e) + ":" + e.name)[0] == Kind(e)[0];
    assert (Kind(f) + ":" + f.name)[0] == Kind(f)[0];
    assert Kind(e) + ":" + e.name == Kind(e) + [':'] + e.name;
    assert Kind(f) + ":" + f.name == Kind(f) + [':'] + f.name;
    SplitAtFirst(Kind(e), Kind(f), e.name, f.name, ':');
  }

  lemma PrintIsNotEmpty(a: seq<Entry>)
    ensures PrintLines(a) == "" <==> a == []
  {
    assert a != [] ==> |PrintLines(a)| >= |PrintEntry(a[0])| >= 1;
  }

  /** What stands behind the first entry. */
  function Behind(a: seq<Entry>): string
    requires a != []
  {
    if |a| == 1 then "" else "\n" + PrintLines(a[1..])
  }

  lemma PrintFirst(a: seq<Entry>)
    requires a != []
    ensures PrintLines(a) == PrintEntry(a[0]) + Behind(a)
  {
  }

  // ---------------------------------------------------------------- canonical lists

  /** No name looks like several entries, alone or together with the entry behind it. */
  predicate Canonical(a: seq<Entry>) {
    forall i :: 0 <= i < |a| ==> !Splits(a[i].name) && (i + 1 < |a| ==> !Merges(a[i].name))
  }

  lemma CanonicalTail(a: seq<Entry>)
    requires a != [] && Canonical(a)
    ensures Canonical(a[1..])
  {
  }

  lemma SameKind(e: Entry, f: Entry)
    requires PrintEntry(e)[0] == PrintEntry(f)[0]
    ensures Kind(e) == Kind(f)
  {
    assert PrintEntry(e)[0] == Kind(e)[0] && PrintEntry(f)[0] == Kind(f)[0];
  }

  lemma Associate(a: string, b: string, c: string, d: string)
    ensures a + b + c + d == a + (b + c + d)
  {
  }

  lemma EitherPart(name: string, rest: string, n: nat)
    requires n < |name + rest|
    ensures n < |name| || (name + rest)[n] in rest
  {
  }

  /** A newline in the beginning of a text stands in its first part when the rest has none. */
  lemma NewlineInside(text: string, name: string, rest: string)
    requires StartsWith(name + rest, text + "\n") && '\n' !in rest
    ensures StartsWith(name, text + "\n")
  {
    var t, n := text + "\n", |text|;
    assert (name + rest)[n] == (name + rest)[..n + 1][n] == t[n] == '\n';
    EitherPart(name, rest, n);
    assert name[..n + 1] == (name + rest)[..n + 1];
  }

  lemma BreakBegins(name: string, front: string, id: string)
    requires StartsWith(name, front + ":" + id + "\n") && IsDecimal(id)
    ensures BreakAt(name, |front|, |front| + 1 + |id|)
  {
    var t := front + ":" + id + "\n";
    assert name[..|t|] == t;
    assert t[|front|] == ':' && t[|front| + 1 + |id|] == '\n' && t[|front| + 1..|front| + 1 + |id|] == id;
    assert name[|front| + 1..|front| + 1 + |id|] == name[..|t|][|front| + 1..|front| + 1 + |id|];
  }

  /** An entry whose print, with a newline behind it, begins the print of another ends inside the other's name. */
  lemma NameInside(e: Entry, f: Entry)
    requires Kind(e) == Kind(f) && StartsWith(PrintEntry(f), PrintEntry(e) + "\n")
    ensures var j := |e.name| + 1 + |Decimal(Ref(e))|; BreakAt(f.name, |e.name|, j)
  {
    var head, text, rest := Kind(e) + ":", e.name + ":" + Decimal(Ref(e)), ":" + Decimal(Ref(f));
    DecimalIsDecimal(Ref(e));
    DecimalDigits(Ref(f));
    Associate(head, e.name + ":", Decimal(Ref(e)), "\n");
    Associate(head, e.name, ":", Decimal(Ref(e)));
    Associate(head, f.name, ":", Decimal(Ref(f)));
    assert head + (text + "\n") == PrintEntry(e) + "\n";
    assert head + (f.name + rest) == PrintEntry(f);
    PrefixInside(head, text + "\n", f.name + rest);
    NewlineInside(text, f.name, rest);
    BreakBegins(f.name, e.name, Decimal(Ref(e)));
  }

  lemma PrefixInside(head: string, x: string, y: string)
    requires StartsWith(head + y, head + x)
    ensures StartsWith(y, x)
  {
    assert (head + y)[..|head + x|] == head + y[..|x|];
    assert (head + y[..|x|])[|head|..] == y[..|x|];
    assert (head + x)[|head|..] == x;
  }

  lemma Overlap(p: string, u: string, q: string, v: string)
    requires p + u == q + v && |p| < |q|
    ensures u != "" && u == q[|p|..] + v && StartsWith(q, p + [u[0]]) && (p != "" ==> p[0] == q[0])
  {
    assert q == (p + u)[..|q|] && p == (p + u)[..|p|];
    assert u == (p + u)[|p|..] == (q + v)[|p|..];
    assert q[..|p| + 1] == (p + u)[..|p| + 1] == p + [u[0]];
  }

  lemma BehindName(name: string, head: string, id: string, behind: string, j: nat)
    requires j < |name|
    ensures ((head + name + ":" + id)[|head| + j..] + behind)[1..] == name[j + 1..] + ":" + (id + behind)
  {
    assert head + name + ":" + id == head + name[..j] + (name[j..] + ":" + id);
    assert (head + name[..j] + (name[j..] + ":" + id))[|head| + j..] == name[j..] + ":" + id;
    assert name[j..] == [name[j]] + name[j + 1..];
  }

  /** When the print of an entry and a newline end within a longer entry, they end in its name. */
  lemma EndsInName(e: Entry, u: string, f: Entry, v: string) returns (j: nat)
    requires PrintEntry(e) + u == PrintEntry(f) + v && |PrintEntry(e)| < |PrintEntry(f)|
    requires u != "" ==> u[0] == '\n'
    ensures u != "" && j < |f.name| && BreakAt(f.name, |e.name|, j)
    ensures u[1..] == f.name[j + 1..] + ":" + (Decimal(Ref(f)) + v)
  {
    Overlap(PrintEntry(e), u, PrintEntry(f), v);
    SameKind(e, f);
    NameInside(e, f);
    j := |e.name| + 1 + |Decimal(Ref(e))|;
    BehindName(f.name, Kind(f) + ":", Decimal(Ref(f)), v, j);
  }

  /** When the first entry of one list is printed within that of another, the longer name holds the shorter's end. */
  lemma LongerFirst(a: seq<Entry>, b: seq<Entry>) returns (j: nat)
    requires a != [] && b != [] && PrintLines(a) == PrintLines(b) && |PrintEntry(a[0])| < |PrintEntry(b[0])|
    ensures |a| > 1 && j < |b[0].name| && BreakAt(b[0].name, |a[0].name|, j)
    ensures b[0].name[j + 1..] + ":" + (Decimal(Ref(b[0])) + Behind(b)) == PrintLines(a[1..])
  {
    PrintFirst(a);
    PrintFirst(b);
    j := EndsInName(a[0], Behind(a), b[0], Behind(b));
  }

  /** What begins like a type and its colon, and goes on with another colon, is at least as long as the type. */
  lemma KindWithin(kind: string, text: string, rest: string, whole: string)
    requires IsKind(kind)
    requires text + ":" + rest == kind + ":" + whole
    ensures (text == kind && rest == whole) || StartsWith(text, kind + ":")
  {
    var t := text + ":" + rest;
    assert t[|text|] == ':';
    assert t == kind + ":" + whole;
    assert forall i :: 0 <= i < |kind| ==> t[i] == kind[i] != ':';
    if |text| == |kind| {
      assert text == t[..|text|] && kind == t[..|kind|];
      assert rest == t[|text| + 1..] && whole == t[|kind| + 1..];
    } else {
      assert |text| >= |kind| + 1;
      assert text[..|kind| + 1] == t[..|kind| + 1] == kind + ":";
    }
  }

  /** What stands behind the type of the first entry and its colon. */
  function AfterKind(a: seq<Entry>): string
    requires a != []
  {
    a[0].name + ":" + (Decimal(Ref(a[0])) + Behind(a))
  }

  lemma PrintKind(a: seq<Entry>)
    requires a != []
    ensures PrintLines(a) == Kind(a[0]) + ":" + AfterKind(a)
  {
    PrintFirst(a);
    Associate(Kind(a[0]) + ":", a[0].name + ":", Decimal(Ref(a[0])), Behind(a));
    Associate(Kind(a[0]) + ":", a[0].name, ":", Decimal(Ref(a[0])));
  }

  /** What follows a break and begins like an entry makes the name one that splits or merges. */
  lemma TypeBehind(name: string, i: nat, j: nat, rest: string, kind: string, whole: string)
    requires BreakAt(name, i, j) && IsKind(kind) && name[j + 1..] + ":" + rest == kind + ":" + whole
    ensures Splits(name) || (Merges(name) && rest == whole)
  {
    KindWithin(kind, name[j + 1..], rest, whole);
    if StartsWith(name[j + 1..], kind + ":") {
      assert SplitAt(name, i, j);
    } else {
      assert MergeAt(name, i, j);
    }
  }

  lemma ColonBehindName(a: seq<Entry>, id: nat)
    requires a != []
    ensures AfterKind(a) != Decimal(id)
  {
    DecimalDigits(id);
    assert ':' !in Decimal(id);
    assert AfterKind(a)[|a[0].name|] == ':';
    assert ':' in AfterKind(a);
  }

  /** No entry of a canonical list begins with the print of the first entry of a list that prints alike. */
  lemma CanonicalFirst(a: seq<Entry>, b: seq<Entry>)
    requires a != [] && b != [] && PrintLines(a) == PrintLines(b) && Canonical(b)
    ensures |PrintEntry(a[0])| >= |PrintEntry(b[0])|
  {
    if |PrintEntry(a[0])| < |PrintEntry(b[0])| {
      var j := LongerFirst(a, b);
      PrintKind(a[1..]);
      TypeBehind(b[0].name, |a[0].name|, j, Decimal(Ref(b[0])) + Behind(b), Kind(a[1]), AfterKind(a[1..]));
      assert Behind(b) == "" && Decimal(Ref(b[0])) + "" == Decimal(Ref(b[0]));
      ColonBehindName(a[1..], Ref(b[0]));
    }
  }

  /** Canonical lists that print alike begin with the same entry and go on alike. */
  lemma SameFirst(a: seq<Entry>, b: seq<Entry>)
    requires a != [] && b != [] && Canonical(a) && Canonical(b) && PrintLines(a) == PrintLines(b)
    ensures a[0] == b[0] && Behind(a) == Behind(b)
  {
    CanonicalFirst(a, b);
    CanonicalFirst(b, a);
    PrintFirst(a);
    PrintFirst(b);
    SameParts(PrintEntry(a[0]), Behind(a), PrintEntry(b[0]), Behind(b));
    PrintEntryInjective(a[0], b[0]);
  }

  lemma SameParts(p: string, u: string, q: string, v: string)
    requires p + u == q + v && |p| == |q|
    ensures p == q && u == v
  {
    assert p == (p + u)[..|p|] && q == (q + v)[..|q|];
    assert u == (p + u)[|p|..] && v == (q + v)[|q|..];
  }

  /** Canonical lists are determined by what they print. */
  lemma {:induction false} CanonicalInjective(a: seq<Entry>, b: seq<Entry>)
    requires Canonical(a) && Canonical(b) && PrintLines(a) == PrintLines(b)
    ensures a == b
    decreases |a|
  {
    PrintIsNotEmpty(a);
    PrintIsNotEmpty(b);
    if a == [] || b == [] {
    } else {
      SameFirst(a, b);
      if |a| > 1 && |b| > 1 {
        assert PrintLines(a[1..]) == Behind(a)[1..] == Behind(b)[1..] == PrintLines(b[1..]);
        CanonicalTail(a);
        CanonicalTail(b);
        CanonicalInjective(a[1..], b[1..]);
      }
      assert a == [a[0]] + a[1..] && b == [b[0]] + b[1..];
    }
  }

  // ---------------------------------------------------------------- every list prints like a canonical one

  function Make(kind: string, name: string, id: nat): (e: Entry)
    requires IsKind(kind)
    ensures Kind(e) == kind && e.name == name && Ref(e) == id
  {
    if kind == "file" then FileEntry(name, id) else DirEntry(name, id)
  }

  lemma BreakParts(name: string, i: nat, j: nat)
    requires BreakAt(name, i, j)
    ensures name == name[..i] + ":" + name[i + 1..j] + "\n" + name[j + 1..]
  {
  }

  lemma Regroup(a: string, b: string, c: string, d: string, e: string, colon: string, line: string)
    ensures a + colon + b + colon + c + line + (d + colon + e) == a + colon + (b + colon + c + line + d) + colon + e
  {
    var x := b + colon + c + line + d;
    assert a + colon + b + colon + c + line + (d + colon + e) == a + colon + x + (colon + e);
    assert a + colon + x + (colon + e) == a + colon + x + colon + e;
  }

  lemma RegroupTwo(a: string, b: string, c: string, d: string, e: string, colon: string, line: string)
    ensures a + colon + b + line + (c + colon + d + colon + e) == a + colon + (b + line + c + colon + d) + colon + e
  {
    assert a + colon + b + line + (c + colon + d + colon + e) ==
      a + colon + (b + line + c + colon + d) + (colon + e);
  }

  lemma KindAndRest(text: string) returns (kind: string, rest: string)
    requires StartsWith(text, "file:") || StartsWith(text, "directory:")
    ensures IsKind(kind) && text == kind + ":" + rest
  {
    kind := if StartsWith(text, "file:") then "file" else "directory";
    rest := text[|kind| + 1..];
    assert text == text[..|kind| + 1] + rest;
  }

  /** A name that splits is the text of two entries. */
  lemma SplitEntry(e: Entry) returns (e1: Entry, e2: Entry)
    requires Splits(e.name)
    ensures PrintEntry(e1) + "\n" + PrintEntry(e2) == PrintEntry(e)
    ensures |PrintEntry(e1)| < |PrintEntry(e)|
  {
    var i: nat, j: nat :| i < j < |e.name| && SplitAt(e.name, i, j);
    var kind, rest := KindAndRest(e.name[j + 1..]);
    BreakParts(e.name, i, j);
    DecimalOfRead(e.name[i + 1..j]);
    e1 := Make(Kind(e), e.name[..i], ReadDecimal(e.name[i + 1..j]));
    e2 := Make(kind, rest, Ref(e));
    Regroup(Kind(e), e.name[..i], e.name[i + 1..j], e.name[j + 1..], Decimal(Ref(e)), ":", "\n");
  }

  /** A name that merges takes the type of the next entry with it. */
  lemma MergeEntry(e: Entry, f: Entry) returns (e1: Entry, e2: Entry)
    requires Merges(e.name)
    ensures PrintEntry(e1) + "\n" + PrintEntry(e2) == PrintEntry(e) + "\n" + PrintEntry(f)
    ensures |PrintEntry(e1)| < |PrintEntry(e)|
  {
    var i: nat, j: nat :| i < j < |e.name| && MergeAt(e.name, i, j);
    var id, kind := e.name[i + 1..j], e.name[j + 1..];
    BreakParts(e.name, i, j);
    DecimalOfRead(id);
    e1 := Make(Kind(e), e.name[..i], ReadDecimal(id));
    e2 := Make(kind, Decimal(Ref(e)) + "\n" + Kind(f) + ":" + f.name, Ref(f));
    Regroup(Kind(e), e.name[..i], id, kind, Decimal(Ref(e)), ":", "\n");
    RegroupTwo(kind, Decimal(Ref(e)), Kind(f), f.name, Decimal(Ref(f)), ":", "\n");
    assert PrintEntry(e) == PrintEntry(e1) + "\n" + (kind + ":" + Decimal(Ref(e)));
    Associate(PrintEntry(e1) + "\n", kind + ":" + Decimal(Ref(e)), "\n", PrintEntry(f));
  }

  lemma PrintCons(e: Entry, a: seq<Entry>)
    ensures PrintLines([e] + a) == PrintEntry(e) + Behind([e] + a)
    ensures Behind([e] + a) == if a == [] then "" else "\n" + PrintLines(a)
  {
    assert ([e] + a)[1..] == a;
    PrintFirst([e] + a);
  }

  lemma PrintTwo(e: Entry, f: Entry, a: seq<Entry>)
    ensures PrintLines([e, f] + a) == PrintEntry(e) + "\n" + PrintEntry(f) + Behind([f] + a)
  {
    assert [e, f] + a == [e] + ([f] + a);
    PrintCons(e, [f] + a);
    PrintCons(f, a);
    RightNested(PrintEntry(e), "\n", PrintEntry(f), Behind([f] + a));
  }

  lemma RightNested(a: string, b: string, c: string, d: string)
    ensures a + (b + (c + d)) == a + b + c + d
  {
    assert a + b + (c + d) == a + b + c + d;
  }

  /** One step towards the canonical list: the first entry gets shorter, and the print stays. */
  lemma Shorten(a: seq<Entry>) returns (b: seq<Entry>)
    requires a != [] && (Splits(a[0].name) || (|a| > 1 && Merges(a[0].name)))
    ensures b != [] && PrintLines(b) == PrintLines(a) && |PrintEntry(b[0])| < |PrintEntry(a[0])|
    ensures |b| >= |a| && (Splits(a[0].name) ==> |b| > |a|)
  {
    if Splits(a[0].name) {
      var e1, e2 := SplitEntry(a[0]);
      b := [e1, e2] + a[1..];
      assert a == [a[0]] + a[1..];
      PrintTwo(e1, e2, a[1..]);
      PrintCons(e2, a[1..]);
      PrintCons(a[0], a[1..]);
    } else {
      var e1, e2 := MergeEntry(a[0], a[1]);
      b := [e1, e2] + a[2..];
      assert a == [a[0], a[1]] + a[2..];
      PrintTwo(e1, e2, a[2..]);
      PrintTwo(a[0], a[1], a[2..]);
      PrintCons(e2, a[2..]);
      PrintCons(a[1], a[2..]);
    }
  }

  /** Every list prints like a canonical one, which has at least as many entries. */
  lemma {:induction false} Canonize(a: seq<Entry>) returns (b: seq<Entry>)
    ensures Canonical(b) && PrintLines(b) == PrintLines(a) && |b| >= |a|
    ensures a != [] && Splits(a[0].name) ==> |b| > |a|
    decreases |PrintLines(a)|, if a == [] then 0 else |PrintEntry(a[0])|
  {
    if a == [] {
      b := [];
    } else if Splits(a[0].name) || (|a| > 1 && Merges(a[0].name)) {
      var c := Shorten(a);
      b := Canonize(c);
    } else {
      PrintFirst(a);
      var c := Canonize(a[1..]);
      PrintIsNotEmpty(c);
      PrintIsNotEmpty(a[1..]);
      PrintCons(a[0], c);
      b := [a[0]] + c;
    }
  }

  // ---------------------------------------------------------------- exactly when prints collide

  /** A list is the one canonical list with its print exactly when it is canonical. */
  lemma CanonicalIff(a: seq<Entry>)
    ensures Canonical(a) <==> forall b :: Canonical(b) && PrintLines(b) == PrintLines(a) ==> b == a
  {
    forall b | Canonical(a) && Canonical(b) && PrintLines(b) == PrintLines(a) ensures b == a {
      CanonicalInjective(a, b);
    }
    var c := Canonize(a);
  }

  predicate AllSafe(a: seq<Entry>) {
    forall e :: e in a ==> NameOk(e)
  }

  lemma SafeIsCanonical(a: seq<Entry>)
    requires AllSafe(a)
    ensures Canonical(a)
  {
    forall i | 0 <= i < |a| ensures !Splits(a[i].name) && !Merges(a[i].name) {
      assert NameOk(a[i]);
    }
  }

  /** Lists of safe names are told apart by their prints. */
  lemma PrintInjective(a: seq<Entry>, b: seq<Entry>)
    requires AllSafe(a) && AllSafe(b) && PrintLines(a) == PrintLines(b)
    ensures a == b
  {
    SafeIsCanonical(a);
    SafeIsCanonical(b);
    CanonicalInjective(a, b);
  }

  /** Another list prints like one entry exactly when the entry's name holds the end and the beginning of entries. */
  lemma SingletonCollides(e: Entry)
    ensures (exists b :: b != [e] && PrintLines(b) == PrintLines([e])) <==> Splits(e.name)
  {
    if Splits(e.name) {
      var b := Canonize([e]);
      assert b != [e];
    }
    forall b | !Splits(e.name) && PrintLines(b) == PrintLines([e]) ensures b == [e] {
      var c := Canonize(b);
      CanonicalInjective(c, [e]);
      PrintIsNotEmpty(b);
      PrintIsNotEmpty([e]);
      assert b == [b[0]];
      PrintEntryInjective(b[0], e);
    }
  }

  lemma AppendRest(a: string, b: string, c: string)
    ensures a + (b + c) == a + b + c
    ensures b != "" ==> (a + b)[|a + b| - 1] == b[|b| - 1]
  {
  }

  /** The last entry is printed at the end, behind a newline when it is not the only one. */
  lemma {:induction false} PrintLast(a: seq<Entry>) returns (front: string)
    requires a != []
    ensures PrintLines(a) == front + PrintEntry(a[|a| - 1])
    ensures |a| > 1 ==> front != "" && front[|front| - 1] == '\n'
  {
    if |a| == 1 {
      front := "";
    } else {
      var rest := PrintLast(a[1..]);
      front := PrintEntry(a[0]) + "\n" + rest;
      AppendRest(PrintEntry(a[0]) + "\n", rest, PrintEntry(a[|a| - 1]));
    }
  }

  lemma MergedEnd(b: seq<Entry>) returns (front: string, kind: string)
    requires b != [] && Merges(b[|b| - 1].name)
    ensures IsKind(kind) && PrintLines(b) == front + ['\n'] + (kind + ":" + Decimal(Ref(b[|b| - 1])))
  {
    var f := b[|b| - 1];
    var i: nat, j: nat :| i < j < |f.name| && MergeAt(f.name, i, j);
    var y := PrintLast(b);
    kind := f.name[j + 1..];
    front := y + (Kind(f) + ":" + f.name[..j]);
    SplitEnd(y, Kind(f) + ":", f.name, j, ":", Decimal(Ref(f)));
  }

  lemma SplitEnd(y: string, head: string, name: string, j: nat, colon: string, id: string)
    requires j < |name| && name[j] == '\n'
    ensures y + (head + name + colon + id) == y + (head + name[..j]) + ['\n'] + (name[j + 1..] + colon + id)
  {
    assert name == name[..j] + (['\n'] + name[j + 1..]);
    assert head + name + colon + id == (head + name[..j]) + (['\n'] + (name[j + 1..] + colon + id));
  }

  lemma ColonsDiffer(e: Entry, kind: string, id: nat)
    requires IsKind(kind)
    ensures PrintEntry(e) != kind + ":" + Decimal(id)
  {
    var tail := e.name + ":" + Decimal(Ref(e));
    DecimalDigits(id);
    assert ':' !in Decimal(id);
    assert tail[|e.name|] == ':';
    assert ':' in tail;
    Associate(Kind(e) + [':'], e.name, ":", Decimal(Ref(e)));
    if PrintEntry(e) == kind + ":" + Decimal(id) {
      SplitAtFirst(kind, Kind(e), Decimal(id), tail, ':');
    }
  }

  lemma NoNewlineInPrint(e: Entry)
    requires '\n' !in e.name
    ensures '\n' !in PrintEntry(e)
  {
    DecimalDigits(Ref(e));
  }

  lemma PrintLastLine(a: seq<Entry>) returns (front: string)
    requires |a| > 1
    ensures PrintLines(a) == front + ['\n'] + PrintEntry(a[|a| - 1])
  {
    var x := PrintLast(a);
    front := x[..|x| - 1];
    WithLast(x);
  }

  lemma WithLast(x: string)
    requires x != ""
    ensures x == x[..|x| - 1] + [x[|x| - 1]]
  {
  }

  /** When the last of several names has no newline, the last name of a list with the same print does not merge. */
  lemma LastDoesNotMerge(a: seq<Entry>, b: seq<Entry>)
    requires |a| > 1 && b != [] && PrintLines(a) == PrintLines(b) && '\n' !in a[|a| - 1].name
    ensures !Merges(b[|b| - 1].name)
  {
    if Merges(b[|b| - 1].name) {
      var e, id := a[|a| - 1], Ref(b[|b| - 1]);
      var x := PrintLastLine(a);
      var y, kind := MergedEnd(b);
      NoNewlineInPrint(e);
      NoNewlineInId(kind, id);
      SplitAtLast(x, y, PrintEntry(e), kind + ":" + Decimal(id), '\n');
      ColonsDiffer(e, kind, id);
    }
  }

  lemma NoNewlineInId(kind: string, id: nat)
    requires IsKind(kind)
    ensures '\n' !in kind + ":" + Decimal(id)
  {
    DecimalDigits(id);
  }

  /**
   A name is safe exactly when a tree that holds it, beside an entry with an ordinary name, prints like no other tree of
   safe names; so no weaker condition on single names would do.
   */
  lemma SafeIff(e: Entry, f: Entry)
    requires '\n' !in f.name
    ensures NameOk(e) <==> forall b :: AllSafe(b) && PrintLines(b) == PrintLines([e, f]) ==> b == [e, f]
  {
    var a := [e, f];
    NoNewlineIsSafe(f.name);
    forall b | NameOk(e) && AllSafe(b) && PrintLines(b) == PrintLines(a) ensures b == a {
      PrintInjective(b, a);
    }
    if !NameOk(e) {
      var c := Canonize(a);
      PrintIsNotEmpty(a);
      PrintIsNotEmpty(c);
      LastDoesNotMerge(a, c);
      forall x | x in c ensures NameOk(x) {
        var k :| 0 <= k < |c| && c[k] == x;
      }
      assert !Canonical(a) by { assert a[0] == e; }
    }
  }

  lemma EndsWithType()
    ensures !Splits("x:1\nfile")
  {
    var name := "x:1\nfile";
    forall i: nat, j: nat | i < j < |name| && BreakAt(name, i, j) ensures !SplitAt(name, i, j) {
      assert j == 3;
    }
  }

  lemma BeginsWithId()
    ensures !Splits("5\nfile:z")
  {
    var name := "5\nfile:z";
    forall i: nat, j: nat | i < j < |name| ensures !BreakAt(name, i, j) {
      assert name[i] == ':' ==> i == 6;
    }
  }

  lemma PrintOfPair(e: Entry, f: Entry)
    ensures PrintLines([e, f]) == PrintEntry(e) + "\n" + PrintEntry(f)
  {
    PrintTwo(e, f, []);
    PrintCons(f, []);
    assert [e, f] + [] == [e, f] && PrintEntry(f) + "" == PrintEntry(f);
    Associate(PrintEntry(e), "\n", PrintEntry(f), "");
  }

  lemma MergedPair()
    ensures PrintLines([FileEntry("x", 1), FileEntry("5\nfile:z", 2)]) ==
      PrintLines([FileEntry("x:1\nfile", 5), FileEntry("z", 2)])
  {
    var e1, f1, e2, f2 :=
      FileEntry("x", 1), FileEntry("5\nfile:z", 2), FileEntry("x:1\nfile", 5), FileEntry("z", 2);
    PrintOfPair(e1, f1);
    PrintOfPair(e2, f2);
    assert Decimal(1) == "1" && Decimal(2) == "2" && Decimal(5) == "5";
    assert e2.name == "x" + ":" + "1" + "\n" + "file" && f1.name == "5" + "\n" + "file" + ":" + "z";
    Regroup("file", "x", "1", "file", "5", ":", "\n");
    RegroupTwo("file", "5", "file", "z", "2", ":", "\n");
    assert PrintEntry(e2) == PrintEntry(e1) + "\n" + ("file" + ":" + "5");
    assert PrintEntry(f1) == "file" + ":" + "5" + "\n" + PrintEntry(f2);
    Associate(PrintEntry(e1) + "\n", "file" + ":" + "5", "\n", PrintEntry(f2));
  }

  /** Two trees of which no name holds the end and the beginning of an entry together still print alike. */
  lemma TwoParses()
    ensures var a, b := [FileEntry("x", 1), FileEntry("5\nfile:z", 2)], [FileEntry("x:1\nfile", 5), FileEntry("z", 2)];
      && a != b && PrintLines(a) == PrintLines(b)
      && (forall e :: e in a + b ==> !Splits(e.name))
  {
    MergedPair();
    EndsWithType();
    BeginsWithId();
    NoNewlineIsSafe("x");
    NoNewlineIsSafe("z");
    assert [FileEntry("x", 1), FileEntry("5\nfile:z", 2)][0].blobId == 1;
  }

  /** With such a name, two different lists print alike, so a tree could be mistaken for another. */
  lemma NewlineNamesCollide()
    ensures PrintLines([FileEntry("a", 1), FileEntry("b", 2)]) == PrintLines([FileEntry("a:1\nfile:b", 2)])
  {
    assert Decimal(1) == "1" && Decimal(2) == "2";
    PrintTwo(FileEntry("a", 1), FileEntry("b", 2), []);
  }
}
