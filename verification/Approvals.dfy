/**
 Matching of approvals against requirements (packages/sdk/src/approvals.ts) and the list of approvals of an execution
 context (packages/sdk/src/runtime-context.ts). Read as a requirement, an approval matches itself, and matching is
 transitive exactly for the action patterns and actions named below; so a redundant approval can be dropped.
 */
module Approvals {
  import opened Wrappers
  import opened Decimals

  /** JSON data as JavaScript sees it: a missing field reads as Undefined. */
  datatype Json =
    | Undefined
    | Null
    | Bool(bool)
    | Num(real)
    | Str(string)
    | Arr(items: seq<Json>)
    | Obj(fields: map<string, Json>)

  datatype Approval = Approval(action: string, data: Option<map<string, Json>>)

  const WILDCARD := "*"

  // ---------------------------------------------------------------- action patterns

  /** The characters that "." of a regular expression does not match. */
  predicate LineTerminator(c: char) {
    c == '\n' || c == '\r' || c == '\U{2028}' || c == '\U{2029}'
  }

  predicate OneLine(s: string) {
    forall i :: 0 <= i < |s| ==> !LineTerminator(s[i])
  }

  /** The anchored regular expression made from a pattern: "*" becomes ".*", and "." keeps its meaning. */
  predicate Glob(p: string, a: string)
    decreases |p| + |a|
  {
    if p == "" then a == ""
    else if p[0] == '*' then Glob(p[1..], a) || (a != "" && !LineTerminator(a[0]) && Glob(p, a[1..]))
    else a != "" && (p[0] == a[0] || (p[0] == '.' && !LineTerminator(a[0]))) && Glob(p[1..], a[1..])
  }

  predicate MatchesAction(pattern: string, action: string) {
    pattern == WILDCARD || if '*' !in pattern then pattern == action else Glob(pattern, action)
  }

  lemma {:induction false} GlobReflexive(p: string)
    ensures Glob(p, p)
  {
    if p == "" {
    } else {
      GlobReflexive(p[1..]);
      if p[0] == '*' { GlobLeadingStar(p[1..], p[1..]); }
    }
  }

  /** A pattern that starts with "*" also matches with one more character in front. */
  lemma GlobLeadingStar(p: string, a: string)
    requires Glob(p, a)
    ensures Glob(['*'] + p, ['*'] + a)
  {
    var q, b := ['*'] + p, ['*'] + a;
    assert q[1..] == p && b[1..] == a;
    assert Glob(q, a);
  }

  lemma {:induction false} GlobTransitive(p: string, q: string, r: string)
    requires '.' !in p && OneLine(r) && Glob(p, q) && Glob(q, r)
    ensures Glob(p, r)
    decreases |p| + |q| + |r|
  {
    if p != "" && q != "" {
      if p[0] == '*' {
        if Glob(p[1..], q) {
          GlobTransitive(p[1..], q, r);
        } else if q[0] == '*' && Glob(q[1..], r) {
          GlobTransitive(p, q[1..], r);
        } else if q[0] == '*' {
          GlobTransitive(p, q, r[1..]);
        } else {
          GlobTransitive(p, q[1..], r[1..]);
        }
      } else {
        GlobTransitive(p[1..], q[1..], r[1..]);
      }
    }
  }

  lemma ActionReflexive(p: string)
    ensures MatchesAction(p, p)
  {
    GlobReflexive(p);
  }

  /** A lone wildcard is matched only by patterns that match everything of one line. */
  lemma StarsMatchAll(p: string, r: string)
    requires '.' !in p && '*' in p && Glob(p, WILDCARD) && OneLine(r)
    ensures Glob(p, r)
  {
    GlobStar(r);
    GlobTransitive(p, WILDCARD, r);
  }

  lemma {:induction false} GlobStar(r: string)
    requires OneLine(r)
    ensures Glob(WILDCARD, r)
  {
    if r == "" {
    } else {
      GlobStar(r[1..]);
    }
  }

  lemma ActionTransitive(p: string, q: string, r: string)
    requires '*' !in p || '.' !in p
    requires OneLine(r) && MatchesAction(p, q) && MatchesAction(q, r)
    ensures MatchesAction(p, r)
  {
    if p != WILDCARD && '*' in p {
      if q == WILDCARD { StarsMatchAll(p, r); } else if '*' in q { GlobTransitive(p, q, r); }
    }
  }

  /** The characters a match of the pattern must have at least. */
  function Fixed(p: string): nat {
    if p == "" then 0 else (if p[0] == '*' then 0 else 1) + Fixed(p[1..])
  }

  lemma {:induction false} MatchIsLong(p: string, a: string)
    requires Glob(p, a)
    ensures |a| >= Fixed(p)
    decreases |p| + |a|
  {
    if p == "" {
    } else {
      if p[0] == '*' {
        if Glob(p[1..], a) { MatchIsLong(p[1..], a); } else { MatchIsLong(p, a[1..]); }
      } else {
        MatchIsLong(p[1..], a[1..]);
      }
    }
  }

  /** The pattern without its stars. */
  function Bare(p: string): string {
    if p == "" then "" else (if p[0] == '*' then "" else [p[0]]) + Bare(p[1..])
  }

  lemma {:induction false} BareMatches(p: string)
    ensures Glob(p, Bare(p)) && |Bare(p)| == Fixed(p)
    ensures OneLine(p) ==> OneLine(Bare(p))
  {
    if p == "" {
    } else {
      BareMatches(p[1..]);
      if p[0] == '*' { assert Bare(p) == Bare(p[1..]); } else { assert Bare(p)[1..] == Bare(p[1..]); }
    }
  }

  /** The pattern with its first "." replaced by "*": matched by the pattern, but it has shorter matches. */
  function Loosened(p: string): string
    requires '.' in p
  {
    if p[0] == '.' then ['*'] + p[1..] else [p[0]] + Loosened(p[1..])
  }

  lemma {:induction false} LoosenedMatches(p: string)
    requires '.' in p
    ensures Glob(p, Loosened(p)) && Fixed(Loosened(p)) + 1 == Fixed(p) && '*' in Loosened(p)
    ensures OneLine(p) ==> OneLine(Loosened(p))
  {
    var q := Loosened(p);
    if p[0] == '.' {
      assert q[1..] == p[1..];
      GlobReflexive(p[1..]);
    } else {
      LoosenedMatches(p[1..]);
      assert q[1..] == Loosened(p[1..]);
      if p[0] == '*' {
        GlobLeadingStar(p[1..], q[1..]);
        assert p == ['*'] + p[1..] && q == ['*'] + q[1..];
      }
    }
  }

  lemma {:induction false} MatchKeepsLines(p: string, a: string)
    requires Glob(p, a) && OneLine(a)
    ensures OneLine(p)
    decreases |p| + |a|
  {
    if p == "" {
    } else {
      if p[0] != '*' {
        MatchKeepsLines(p[1..], a[1..]);
      } else if Glob(p[1..], a) {
        MatchKeepsLines(p[1..], a);
      } else {
        MatchKeepsLines(p, a[1..]);
      }
      assert forall i :: 1 <= i < |p| ==> p[i] == p[1..][i - 1];
    }
  }

  lemma ActionKeepsLines(p: string, a: string)
    requires MatchesAction(p, a) && OneLine(a)
    ensures OneLine(p)
  {
    if p != WILDCARD && '*' in p { MatchKeepsLines(p, a); }
  }

  /** Whatever matches a pattern that `p` matches is itself matched by `p`. */
  ghost predicate Covers(p: string, q: string, r: string) {
    MatchesAction(p, q) && MatchesAction(q, r) ==> MatchesAction(p, r)
  }

  /** For actions of one line: the patterns for which matching is transitive are those without both "*" and ".". */
  lemma PatternTransitiveIff(p: string)
    ensures
      (forall q, r :: OneLine(r) ==> Covers(p, q, r)) <==>
      ('*' !in p || '.' !in p || !OneLine(p))
  {
    if '*' in p && '.' in p && OneLine(p) {
      var q := Loosened(p);
      var r := Bare(q);
      LoosenedMatches(p);
      BareMatches(q);
      if MatchesAction(p, r) { MatchIsLong(p, r); }
      assert !Covers(p, q, r);
    } else {
      forall q, r | OneLine(r) ensures Covers(p, q, r) {
        if MatchesAction(p, q) && MatchesAction(q, r) {
          ActionKeepsLines(q, r);
          ActionKeepsLines(p, q);
          ActionTransitive(p, q, r);
        }
      }
    }
  }

  /** For patterns without ".": the actions for which matching is transitive are those of one line. */
  lemma ActionTransitiveIff(r: string)
    ensures (forall p, q :: '.' !in p ==> Covers(p, q, r)) <==> OneLine(r)
  {
    if OneLine(r) {
      forall p, q | '.' !in p ensures Covers(p, q, r) {
        if MatchesAction(p, q) && MatchesAction(q, r) { ActionTransitive(p, q, r); }
      }
    } else {
      assert Glob("**", WILDCARD) by {
        GlobStar(WILDCARD);
        assert "**"[1..] == WILDCARD;
      }
      if Glob("**", r) { StarsMatchOneLine("**", r); }
      assert !Covers("**", WILDCARD, r);
    }
  }

  lemma {:induction false} StarsMatchOneLine(p: string, r: string)
    requires (forall i :: 0 <= i < |p| ==> p[i] == '*') && Glob(p, r)
    ensures OneLine(r)
    decreases |p| + |r|
  {
    if p == "" {
    } else {
      if Glob(p[1..], r) {
        StarsMatchOneLine(p[1..], r);
      } else {
        StarsMatchOneLine(p, r[1..]);
        assert forall i :: 1 <= i < |r| ==> r[i] == r[1..][i - 1];
      }
    }
  }

  // ---------------------------------------------------------------- data

  datatype TypeName = UndefinedType | BooleanType | NumberType | StringType | ObjectType

  function TypeOf(v: Json): TypeName {
    match v
    case Undefined => UndefinedType
    case Bool(_) => BooleanType
    case Num(_) => NumberType
    case Str(_) => StringType
    case _ => ObjectType
  }

  /** The index below `n` that a property name denotes. */
  function IndexOf(key: string, n: nat): (index: Option<nat>)
    ensures index.Some? ==> index.value < n
  {
    if n == 0 then None
    else if Decimal(n - 1) == key then Some(n - 1)
    else IndexOf(key, n - 1)
  }

  /** `v?.[key]` for an object, an array or null. */
  function Field(v: Json, key: string): Json {
    match v
    case Obj(fields) => if key in fields then fields[key] else Undefined
    case Arr(items) =>
      if key == "length" then Num(|items| as real)
      else
        var index := IndexOf(key, |items|);
        if index.Some? then items[index.value] else Undefined
    case _ => Undefined
  }

  predicate MatchesData(a: Json, r: Json)
    decreases a
  {
    if a == Str(WILDCARD) || a.Undefined? then true
    else if TypeOf(a) != TypeOf(r) then false
    else
      match a
      case Arr(items) =>
        r.Arr? && |items| == |r.items| && forall i :: 0 <= i < |items| ==> MatchesData(items[i], r.items[i])
      case Obj(fields) => forall key :: key in fields ==> MatchesData(fields[key], Field(r, key))
      case _ => a == r
  }

  lemma {:induction false} DataReflexive(a: Json)
    ensures MatchesData(a, a)
    decreases a
  {
    match a
    case Arr(items) =>
      forall i | 0 <= i < |items| ensures MatchesData(items[i], items[i]) {
        DataReflexive(items[i]);
      }
    case Obj(fields) =>
      forall key | key in fields ensures MatchesData(fields[key], Field(a, key)) {
        DataReflexive(fields[key]);
      }
    case _ =>
  }

  /** What is required of a value that matches is required of each of its fields. */
  lemma FieldMatches(b: Json, c: Json, key: string)
    requires MatchesData(b, c) && b != Str(WILDCARD) && !b.Undefined?
    ensures MatchesData(Field(b, key), Field(c, key))
  {
  }

  lemma {:induction false} DataTransitive(a: Json, b: Json, c: Json)
    requires MatchesData(a, b) && MatchesData(b, c)
    ensures MatchesData(a, c)
    decreases a
  {
    match a
    case Arr(items) =>
      forall i | 0 <= i < |items| ensures MatchesData(items[i], c.items[i]) {
        DataTransitive(items[i], b.items[i], c.items[i]);
      }
    case Obj(fields) =>
      forall key | key in fields ensures MatchesData(fields[key], Field(c, key)) {
        FieldMatches(b, c, key);
        DataTransitive(fields[key], Field(b, key), Field(c, key));
      }
    case _ =>
  }

  // ---------------------------------------------------------------- approvals

  predicate MatchesApproval(approval: Approval, requirement: Approval) {
    && MatchesAction(approval.action, requirement.action)
    && (approval.data.None? ||
        var data := if requirement.data.Some? then requirement.data.value else map[];
        forall key :: key in approval.data.value ==> MatchesData(approval.data.value[key], Field(Obj(data), key)))
  }

  lemma MatchesItself(approval: Approval)
    ensures MatchesApproval(approval, approval)
  {
    ActionReflexive(approval.action);
    if approval.data.Some? { DataReflexive(Obj(approval.data.value)); }
  }

  /** The approvals and requirements for which matching is transitive, by `PatternTransitiveIff`. */
  predicate Regular(approval: Approval, requirement: Approval) {
    OneLine(requirement.action) && ('*' !in approval.action || '.' !in approval.action)
  }

  lemma MatchingIsTransitive(a: Approval, b: Approval, requirement: Approval)
    requires Regular(a, requirement) && MatchesApproval(a, b) && MatchesApproval(b, requirement)
    ensures MatchesApproval(a, requirement)
  {
    ActionTransitive(a.action, b.action, requirement.action);
    if a.data.Some? {
      var middle := Obj(if b.data.Some? then b.data.value else map[]);
      var last := Obj(if requirement.data.Some? then requirement.data.value else map[]);
      assert MatchesData(middle, last);
      DataTransitive(Obj(a.data.value), middle, last);
    }
  }

  predicate HasApproval(approvals: seq<Approval>, requirement: Approval) {
    exists i :: 0 <= i < |approvals| && MatchesApproval(approvals[i], requirement)
  }

  /** An approval that another one matches can be dropped: no question is answered differently. */
  lemma DropRedundant(before: seq<Approval>, b: Approval, after: seq<Approval>, requirement: Approval)
    requires exists a :: a in before + after && MatchesApproval(a, b) && Regular(a, requirement)
    ensures HasApproval(before + [b] + after, requirement) <==> HasApproval(before + after, requirement)
  {
    var all, rest := before + [b] + after, before + after;
    if HasApproval(rest, requirement) {
      var i :| 0 <= i < |rest| && MatchesApproval(rest[i], requirement);
      assert all[if i < |before| then i else i + 1] == rest[i];
    }
    if HasApproval(all, requirement) {
      var i :| 0 <= i < |all| && MatchesApproval(all[i], requirement);
      if i == |before| {
        var a :| a in rest && MatchesApproval(a, b) && Regular(a, requirement);
        MatchingIsTransitive(a, b, requirement);
        var j :| 0 <= j < |rest| && rest[j] == a;
        assert MatchesApproval(rest[j], requirement);
      } else {
        assert rest[if i < |before| then i else i - 1] == all[i];
      }
    }
  }

  // ---------------------------------------------------------------- the context's list

  function CloneValue(v: Json): Json
    decreases v
  {
    match v
    case Arr(items) => Arr(CloneItems(items))
    case Obj(fields) => Obj(map key | key in fields :: CloneValue(fields[key]))
    case _ => v
  }

  function CloneItems(items: seq<Json>): (copy: seq<Json>)
    ensures |copy| == |items|
    decreases items
  {
    if items == [] then [] else [CloneValue(items[0])] + CloneItems(items[1..])
  }

  lemma {:induction false} CloneIsEqual(v: Json)
    ensures CloneValue(v) == v
    decreases v
  {
    match v
    case Arr(items) => ItemsCloneEqual(items);
    case Obj(fields) =>
      forall key | key in fields ensures CloneValue(fields[key]) == fields[key] {
        CloneIsEqual(fields[key]);
      }
    case _ =>
  }

  lemma {:induction false} ItemsCloneEqual(items: seq<Json>)
    ensures CloneItems(items) == items
    decreases items
  {
    if items == [] {
    } else {
      CloneIsEqual(items[0]);
      ItemsCloneEqual(items[1..]);
    }
  }

  function CloneApproval(approval: Approval): Approval {
    match approval.data
    case None => Approval(approval.action, None)
    case Some(data) => Approval(approval.action, Some(CloneValue(Obj(data)).fields))
  }

  lemma CloneApprovalIsEqual(approval: Approval)
    ensures CloneApproval(approval) == approval
  {
    if approval.data.Some? { CloneIsEqual(Obj(approval.data.value)); }
  }

  /** The approvals of an execution context. */
  class ExecutionContext {
    var approvals: seq<Approval>

    constructor (initial: seq<Approval>)
      ensures forall requirement :: HasApproval(approvals, requirement) <==> HasApproval(initial, requirement)
    {
      new;
      ReplaceApprovals(initial);
    }

    method ReplaceApprovals(next: seq<Approval>)
      modifies this
      ensures approvals == next
    {
      approvals := [];
      for i := 0 to |next|
        invariant approvals == next[..i]
      {
        CloneApprovalIsEqual(next[i]);
        approvals := approvals + [CloneApproval(next[i])];
      }
    }

    /** One more approval answers exactly the requirements that it matches, besides those answered before. */
    method PushApproval(approval: Approval)
      modifies this
      ensures forall requirement ::
        HasApproval(approvals, requirement) <==>
        (old(HasApproval(approvals, requirement)) || MatchesApproval(approval, requirement))
    {
      CloneApprovalIsEqual(approval);
      approvals := approvals + [CloneApproval(approval)];
      forall requirement
        ensures
          HasApproval(approvals, requirement) <==>
          (old(HasApproval(approvals, requirement)) || MatchesApproval(approval, requirement))
      {
        PushedAnswers(old(approvals), approval, requirement);
      }
    }

    method RequireApproval(requirement: Approval) returns (result: Result<(), Approval>)
      ensures result == if HasApproval(approvals, requirement) then Ok(()) else Err(requirement)
    {
      for i := 0 to |approvals|
        invariant forall j :: 0 <= j < i ==> !MatchesApproval(approvals[j], requirement)
      {
        if MatchesApproval(approvals[i], requirement) {
          return Ok(());
        }
      }
      return Err(requirement);
    }
  }

  lemma PushedAnswers(approvals: seq<Approval>, approval: Approval, requirement: Approval)
    ensures
      HasApproval(approvals + [approval], requirement) <==>
      (HasApproval(approvals, requirement) || MatchesApproval(approval, requirement))
  {
    var all := approvals + [approval];
    if HasApproval(approvals, requirement) {
      var i :| 0 <= i < |approvals| && MatchesApproval(approvals[i], requirement);
      assert all[i] == approvals[i];
    }
    if MatchesApproval(approval, requirement) { assert all[|approvals|] == approval; }
    if HasApproval(all, requirement) {
      var i :| 0 <= i < |all| && MatchesApproval(all[i], requirement);
      assert i < |approvals| ==> all[i] == approvals[i];
    }
  }
}
