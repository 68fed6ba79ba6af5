/**
 What a match of an approval means, without the recursion that decides it: which texts an action pattern spells, and
 where the data of an approval contradicts a requirement.
 */
module ApprovalMeaning {
  import opened Wrappers
  import opened Decimals
  import opened Approvals

  // ---------------------------------------------------------------- actions

  /** What one character of a pattern with "*" stands for. */
  predicate StandsFor(c: char, piece: string) {
    if c == '*' then OneLine(piece)
    else |piece| == 1 && (piece[0] == c || (c == '.' && OneLine(piece)))
  }

  /** One piece for each character of the pattern. */
  ghost predicate Spells(pattern: string, pieces: seq<string>) {
    |pieces| == |pattern| && forall i :: 0 <= i < |pieces| ==> StandsFor(pattern[i], pieces[i])
  }

  function Concat(pieces: seq<string>): string {
    if pieces == [] then "" else pieces[0] + Concat(pieces[1..])
  }

  lemma {:induction false} GlobSpells(p: string, a: string) returns (pieces: seq<string>)
    requires Glob(p, a)
    ensures Spells(p, pieces) && Concat(pieces) == a
    decreases |p| + |a|
  {
    if p == "" {
      pieces := [];
    } else if p[0] != '*' {
      var rest := GlobSpells(p[1..], a[1..]);
      pieces := [a[..1]] + rest;
      assert a == a[..1] + a[1..];
    } else if Glob(p[1..], a) {
      var rest := GlobSpells(p[1..], a);
      pieces := [""] + rest;
    } else {
      var rest := GlobSpells(p, a[1..]);
      pieces := [[a[0]] + rest[0]] + rest[1..];
      assert StandsFor('*', [a[0]] + rest[0]);
      assert [a[0]] + rest[0] + Concat(rest[1..]) == [a[0]] + (rest[0] + Concat(rest[1..]));
    }
  }

  lemma {:induction false} SpelledMatches(p: string, pieces: seq<string>)
    requires Spells(p, pieces)
    ensures Glob(p, Concat(pieces))
    decreases |p|, if pieces == [] then 0 else |pieces[0]|
  {
    if p == "" {
    } else {
      var first, behind := pieces[0], Concat(pieces[1..]);
      assert StandsFor(p[0], first);
      if p[0] != '*' || first == "" {
        SpelledMatches(p[1..], pieces[1..]);
        assert first == "" ==> Concat(pieces) == behind;
        assert first != "" ==> Concat(pieces)[0] == first[0] && Concat(pieces)[1..] == behind;
      } else {
        var shorter := [first[1..]] + pieces[1..];
        SpelledMatches(p, shorter);
        assert Concat(pieces)[0] == first[0] && Concat(pieces)[1..] == Concat(shorter);
      }
    }
  }

  /** The four characters that end a line. */
  lemma LineEnds(c: char)
    ensures OneLine([c]) <==> c != '\n' && c != '\r' && c != '\U{2028}' && c != '\U{2029}'
  {
    assert [c][0] == c;
  }

  /**
   A lone "*" matches every action, a pattern without "*" itself alone, and any other pattern exactly the texts that it
   spells, each "*" standing for some text of one line and each "." for any character that ends no line.
   */
  lemma ActionMatchIff(pattern: string, action: string)
    ensures MatchesAction(pattern, action) <==>
      if pattern == "*" then true
      else if '*' !in pattern then pattern == action
      else exists pieces :: Spells(pattern, pieces) && Concat(pieces) == action
  {
    if pattern != "*" && '*' in pattern {
      if Glob(pattern, action) { var pieces := GlobSpells(pattern, action); }
      forall pieces | Spells(pattern, pieces) && Concat(pieces) == action ensures Glob(pattern, action) {
        SpelledMatches(pattern, pieces);
      }
    }
  }

  // ---------------------------------------------------------------- fields

  lemma {:induction false} IndexFound(i: nat, n: nat)
    requires i < n
    ensures IndexOf(Decimal(i), n) == Some(i)
    decreases n
  {
    if i < n - 1 {
      if Decimal(n - 1) == Decimal(i) { DecimalInjective(n - 1, i); }
      IndexFound(i, n - 1);
    }
  }

  lemma {:induction false} NoIndex(key: string, n: nat)
    requires forall i: nat :: i < n ==> Decimal(i) != key
    ensures IndexOf(key, n) == None
  {
    if n > 0 { NoIndex(key, n - 1); }
  }

  /** Reading a field gives what an object has under the key, an item or the length of an array, and else undefined. */
  lemma FieldReads(v: Json, key: string)
    ensures v.Obj? ==> Field(v, key) == if key in v.fields then v.fields[key] else Undefined
    ensures v.Arr? ==> Field(v, "length") == Num(|v.items| as real)
    ensures v.Arr? ==> forall i: nat :: i < |v.items| ==> Field(v, Decimal(i)) == v.items[i]
    ensures v.Arr? && key != "length" && (forall i: nat :: i < |v.items| ==> Decimal(i) != key) ==>
      Field(v, key) == Undefined
    ensures !v.Obj? && !v.Arr? ==> Field(v, key) == Undefined
  {
    if v.Arr? {
      forall i: nat | i < |v.items| ensures Field(v, Decimal(i)) == v.items[i] {
        IndexFound(i, |v.items|);
        DecimalDigits(i);
        assert "length"[0] !in Decimal(i);
      }
      if forall i: nat :: i < |v.items| ==> Decimal(i) != key { NoIndex(key, |v.items|); }
    }
  }

  // ---------------------------------------------------------------- data

  datatype Step = Item(i: nat) | Entry(key: string)

  /** One step into an approval value and into the same place of the requirement. */
  function Enter(a: Json, r: Json, step: Step): Option<(Json, Json)> {
    match step
    case Item(i) =>
      if a.Arr? && r.Arr? && i < |a.items| && i < |r.items| then Some((a.items[i], r.items[i])) else None
    case Entry(key) =>
      if a.Obj? && key in a.fields then Some((a.fields[key], Field(r, key))) else None
  }

  /** What a path leads to in both. */
  function Follow(a: Json, r: Json, path: seq<Step>): Option<(Json, Json)>
    decreases |path|
  {
    if path == [] then Some((a, r))
    else match Enter(a, r, path[0])
      case Some(next) => Follow(next.0, next.1, path[1..])
      case None => None
  }

  /** Another scalar, an array of another length or none, or no object where one is asked for. */
  predicate Contradicts(a: Json, r: Json) {
    match a
    case Undefined => false
    case Null => r != Null
    case Bool(b) => r != Bool(b)
    case Num(x) => r != Num(x)
    case Str(s) => s != "*" && r != Str(s)
    case Arr(items) => !r.Arr? || |r.items| != |items|
    case Obj(_) => !r.Obj? && !r.Arr? && !r.Null?
  }

  ghost predicate ContradictedAt(a: Json, r: Json, path: seq<Step>) {
    match Follow(a, r, path)
    case Some((x, y)) => Contradicts(x, y)
    case None => false
  }

  lemma ContradictedBelow(a: Json, r: Json, step: Step, rest: seq<Step>)
    requires Enter(a, r, step).Some?
    requires ContradictedAt(Enter(a, r, step).value.0, Enter(a, r, step).value.1, rest)
    ensures ContradictedAt(a, r, [step] + rest)
  {
    assert ([step] + rest)[0] == step && ([step] + rest)[1..] == rest;
  }

  /** A mismatch shows somewhere. */
  lemma {:induction false} MismatchShows(a: Json, r: Json) returns (path: seq<Step>)
    requires !MatchesData(a, r)
    ensures ContradictedAt(a, r, path)
    decreases a
  {
    if Contradicts(a, r) {
      path := [];
    } else {
      match a
      case Arr(items) =>
        var i: nat :| i < |items| && !MatchesData(items[i], r.items[i]);
        var rest := MismatchShows(items[i], r.items[i]);
        ContradictedBelow(a, r, Item(i), rest);
        path := [Item(i)] + rest;
      case Obj(fields) =>
        var key :| key in fields && !MatchesData(fields[key], Field(r, key));
        var rest := MismatchShows(fields[key], Field(r, key));
        ContradictedBelow(a, r, Entry(key), rest);
        path := [Entry(key)] + rest;
      case _ => path := [];
    }
  }

  lemma {:induction false} ContradictionMismatches(a: Json, r: Json, path: seq<Step>)
    requires ContradictedAt(a, r, path)
    ensures !MatchesData(a, r)
    decreases |path|
  {
    if path == [] {
    } else {
      var next := Enter(a, r, path[0]).value;
      ContradictionMismatches(next.0, next.1, path[1..]);
    }
  }

  /** Data does not match exactly when a path leads to a place where the requirement contradicts the approval. */
  lemma MismatchIff(a: Json, r: Json)
    ensures !MatchesData(a, r) <==> exists path :: ContradictedAt(a, r, path)
  {
    if !MatchesData(a, r) { var path := MismatchShows(a, r); }
    if path :| ContradictedAt(a, r, path) { ContradictionMismatches(a, r, path); }
  }

  /** A value that holds no wildcard, nothing undefined and no object, at any depth. */
  predicate Constant(a: Json) {
    match a
    case Undefined => false
    case Str(s) => s != "*"
    case Arr(items) => forall i :: 0 <= i < |items| ==> Constant(items[i])
    case Obj(_) => false
    case _ => true
  }

  /** It matches itself alone. */
  lemma {:induction false} ConstantMatchesItself(a: Json, r: Json)
    requires Constant(a)
    ensures MatchesData(a, r) <==> a == r
    decreases a
  {
    if a.Arr? && r.Arr? && |a.items| == |r.items| {
      forall i | 0 <= i < |a.items| ensures MatchesData(a.items[i], r.items[i]) <==> a.items[i] == r.items[i] {
        ConstantMatchesItself(a.items[i], r.items[i]);
      }
    }
  }

  // ---------------------------------------------------------------- approvals

  /** The data of a requirement, which may be left out. */
  function Given(requirement: Approval): Json {
    Obj(if requirement.data.Some? then requirement.data.value else map[])
  }

  /** What keeps an approval from covering a requirement. */
  ghost predicate Refuses(approval: Approval, requirement: Approval) {
    || !MatchesAction(approval.action, requirement.action)
    || (approval.data.Some? && exists path :: ContradictedAt(Obj(approval.data.value), Given(requirement), path))
  }

  lemma RefusesIff(approval: Approval, requirement: Approval)
    ensures !MatchesApproval(approval, requirement) <==> Refuses(approval, requirement)
  {
    if approval.data.Some? { MismatchIff(Obj(approval.data.value), Given(requirement)); }
  }

  /** A requirement is denied exactly when every approval has another action or contradicts it somewhere. */
  lemma DeniedIff(approvals: seq<Approval>, requirement: Approval)
    ensures !HasApproval(approvals, requirement) <==> forall a :: a in approvals ==> Refuses(a, requirement)
  {
    forall i | 0 <= i < |approvals|
      ensures !MatchesApproval(approvals[i], requirement) <==> Refuses(approvals[i], requirement)
    {
      RefusesIff(approvals[i], requirement);
    }
    forall a | a in approvals && !HasApproval(approvals, requirement) ensures Refuses(a, requirement) {
      var i :| 0 <= i < |approvals| && approvals[i] == a;
    }
  }

  /** An approval of one amount does not cover another. */
  lemma OtherAmountRefused(action: string, key: string, x: real, y: real)
    requires x != y
    ensures !HasApproval([Approval(action, Some(map[key := Num(x)]))], Approval(action, Some(map[key := Num(y)])))
  {
    var a, r := Approval(action, Some(map[key := Num(x)])), Approval(action, Some(map[key := Num(y)]));
    assert Follow(Obj(a.data.value), Given(r), [Entry(key)]) == Some((Num(x), Num(y)));
    DeniedIff([a], r);
  }
}
