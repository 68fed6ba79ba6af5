/**
 The path normalizers, written several times over in the repository. Three clamp ".." at the root (convex-fs.ts,
 runtime-core/src/index.ts, compiler.ts), two reject a path that leaves the root (path-safety.ts, local-session-fs.ts).
 All of them are one fold over the parts between slashes. Normal forms are in bijection with lists of proper names,
 which is the form in which the other modules handle paths.
 */
module Paths {
  import opened Wrappers

  // ---------------------------------------------------------------- split and join

  function Split(s: string): (parts: seq<string>)
    ensures parts != []
  {
    if s == "" then [""]
    else if s[0] == '/' then [""] + Split(s[1..])
    else
      var rest := Split(s[1..]);
      [[s[0]] + rest[0]] + rest[1..]
  }

  function Join(parts: seq<string>): string {
    if parts == [] then ""
    else if |parts| == 1 then parts[0]
    else parts[0] + "/" + Join(parts[1..])
  }

  lemma PrefixFirst(c: char, a: seq<string>, b: seq<string>)
    requires a != []
    ensures [""] + (a + b) == ([""] + a) + b
    ensures [[c] + (a + b)[0]] + (a + b)[1..] == ([[c] + a[0]] + a[1..]) + b
  {
    assert (a + b)[1..] == a[1..] + b;
  }

  lemma {:induction false} SplitConcat(a: string, b: string)
    ensures Split(a + "/" + b) == Split(a) + Split(b)
  {
    var whole := a + "/" + b;
    if a == "" {
      assert whole[0] == '/' && whole[1..] == b;
    } else {
      SplitConcat(a[1..], b);
      assert whole[0] == a[0] && whole[1..] == a[1..] + "/" + b;
      PrefixFirst(a[0], Split(a[1..]), Split(b));
    }
  }

  lemma {:induction false} SplitWhole(s: string)
    requires '/' !in s
    ensures Split(s) == [s]
  {
    if s == "" {
    } else {
      SplitWhole(s[1..]);
      assert [s[0]] + s[1..] == s;
    }
  }

  lemma {:induction false} SplitJoin(parts: seq<string>)
    requires parts != [] && forall i :: 0 <= i < |parts| ==> '/' !in parts[i]
    ensures Split(Join(parts)) == parts
  {
    SplitWhole(parts[0]);
    if |parts| > 1 {
      SplitJoin(parts[1..]);
      SplitConcat(parts[0], Join(parts[1..]));
    }
  }

  lemma {:induction false} PartsHaveNoSlash(s: string)
    ensures forall i :: 0 <= i < |Split(s)| ==> '/' !in Split(s)[i]
  {
    if s == "" {
    } else {
      PartsHaveNoSlash(s[1..]);
    }
  }

  // ---------------------------------------------------------------- the two folds

  predicate Noise(part: string) {
    part == "" || part == "."
  }

  function Pop(stack: seq<string>): seq<string> {
    if stack == [] then [] else stack[..|stack| - 1]
  }

  /** Popping the empty stack is ignored. */
  function Resolve(stack: seq<string>, parts: seq<string>): seq<string>
    decreases |parts|
  {
    if parts == [] then stack
    else if Noise(parts[0]) then Resolve(stack, parts[1..])
    else if parts[0] == ".." then Resolve(Pop(stack), parts[1..])
    else Resolve(stack + [parts[0]], parts[1..])
  }

  /** Popping the empty stack is an error. */
  function ResolveStrictly(stack: seq<string>, parts: seq<string>): Option<seq<string>>
    decreases |parts|
  {
    if parts == [] then Some(stack)
    else if Noise(parts[0]) then ResolveStrictly(stack, parts[1..])
    else if parts[0] != ".." then ResolveStrictly(stack + [parts[0]], parts[1..])
    else if stack == [] then None
    else ResolveStrictly(Pop(stack), parts[1..])
  }

  /** The normal form of a path, as a list of names. */
  function Segments(path: string): seq<string> {
    Resolve([], Split(path))
  }

  function Absolute(segments: seq<string>): string {
    "/" + Join(segments)
  }

  /** How many levels the parts go down, all in all. */
  function Depth(parts: seq<string>): int {
    if parts == [] then 0
    else (if Noise(parts[0]) then 0 else if parts[0] == ".." then -1 else 1) + Depth(parts[1..])
  }

  /** No prefix of the parts goes up further than it went down. */
  ghost predicate StaysInside(parts: seq<string>, level: int) {
    forall k :: 0 <= k <= |parts| ==> level + Depth(parts[..k]) >= 0
  }

  lemma {:induction false} ResolveAppend(stack: seq<string>, a: seq<string>, b: seq<string>)
    ensures Resolve(stack, a + b) == Resolve(Resolve(stack, a), b)
    decreases |a|
  {
    if a == [] {
      assert a + b == b;
    } else {
      assert (a + b)[1..] == a[1..] + b;
      var next :=
        if Noise(a[0]) then stack else if a[0] == ".." then Pop(stack) else stack + [a[0]];
      ResolveAppend(next, a[1..], b);
    }
  }

  lemma StaysInsideStep(part: string, rest: seq<string>, level: nat)
    ensures StaysInside([part] + rest, level) <==> StaysInside(rest, level + Depth([part]))
  {
    var parts := [part] + rest;
    assert parts[1..] == rest;
    forall k | 0 <= k <= |rest| ensures Depth(parts[..k + 1]) == Depth([part]) + Depth(rest[..k]) {
      assert parts[..k + 1][1..] == rest[..k];
    }
    if StaysInside(parts, level) {
      forall k | 0 <= k <= |rest| ensures level + Depth([part]) + Depth(rest[..k]) >= 0 {
        assert level + Depth(parts[..k + 1]) >= 0;
      }
    }
    if StaysInside(rest, level + Depth([part])) {
      forall k | 0 <= k <= |parts| ensures level + Depth(parts[..k]) >= 0 {
        if k > 0 { assert level + Depth([part]) + Depth(rest[..k - 1]) >= 0; }
      }
    }
  }

  /** The strict fold succeeds exactly when no prefix pops an empty stack, and then it is the other one. */
  lemma {:induction false} StrictIff(stack: seq<string>, parts: seq<string>)
    ensures ResolveStrictly(stack, parts).Some? <==> StaysInside(parts, |stack|)
    ensures ResolveStrictly(stack, parts).Some? ==> ResolveStrictly(stack, parts).value == Resolve(stack, parts)
    decreases |parts|
  {
    if parts == [] {
    } else {
      var part, rest := parts[0], parts[1..];
      assert parts == [part] + rest;
      StaysInsideStep(part, rest, |stack|);
      if Noise(part) {
        StrictIff(stack, rest);
      } else if part != ".." {
        StrictIff(stack + [part], rest);
      } else if stack != [] {
        StrictIff(Pop(stack), rest);
      } else {
        assert Depth(rest[..0]) == 0;
        assert !StaysInside(rest, -1);
      }
    }
  }

  // ---------------------------------------------------------------- normal forms

  predicate ProperName(name: string) {
    !Noise(name) && name != ".." && '/' !in name
  }

  predicate ProperNames(segments: seq<string>) {
    forall i :: 0 <= i < |segments| ==> ProperName(segments[i])
  }

  lemma {:induction false} ResolveProper(stack: seq<string>, parts: seq<string>)
    requires ProperNames(stack) && forall i :: 0 <= i < |parts| ==> '/' !in parts[i]
    ensures ProperNames(Resolve(stack, parts))
    decreases |parts|
  {
    if parts == [] {
    } else {
      var next :=
        if Noise(parts[0]) then stack else if parts[0] == ".." then Pop(stack) else stack + [parts[0]];
      ResolveProper(next, parts[1..]);
    }
  }

  lemma SegmentsAreProper(path: string)
    ensures ProperNames(Segments(path))
  {
    PartsHaveNoSlash(path);
    ResolveProper([], Split(path));
  }

  lemma {:induction false} ResolveNames(stack: seq<string>, names: seq<string>)
    requires ProperNames(names)
    ensures Resolve(stack, names) == stack + names
    decreases |names|
  {
    if names == [] {
    } else {
      ResolveNames(stack + [names[0]], names[1..]);
      assert stack + names == stack + [names[0]] + names[1..];
    }
  }

  /** Lists of proper names and normal forms are one thing: printing one and normalizing it gives the list back. */
  lemma NormalFormReadsBack(segments: seq<string>)
    requires ProperNames(segments)
    ensures Segments(Absolute(segments)) == segments && Segments(Join(segments)) == segments
  {
    LeadingSlash(Join(segments));
    if segments == [] {
      assert Split("") == [""];
    } else {
      SplitJoin(segments);
      ResolveNames([], segments);
    }
  }

  lemma NormalizingIsIdempotent(path: string)
    ensures Segments(Absolute(Segments(path))) == Segments(path)
    ensures Segments(Join(Segments(path))) == Segments(path)
  {
    SegmentsAreProper(path);
    NormalFormReadsBack(Segments(path));
  }

  lemma LeadingSlash(path: string)
    ensures Segments("/" + path) == Segments(path)
  {
    assert ("/" + path)[1..] == path;
    assert ([""] + Split(path))[1..] == Split(path);
  }

  lemma TrailingSlash(path: string)
    ensures Segments(path + "/") == Segments(path)
  {
    SplitConcat(path, "");
    assert path + "/" + "" == path + "/";
    ResolveAppend([], Split(path), [""]);
  }

  /** One more part at the end of a path: a name is added, ".." takes the last name off, and "" and "." do nothing. */
  lemma SegmentsOneMore(path: string, part: string)
    requires '/' !in part
    ensures Segments(path + "/" + part) ==
      if part == "" || part == "." then Segments(path)
      else if part != ".." then Segments(path) + [part]
      else if Segments(path) == [] then []
      else Segments(path)[..|Segments(path)| - 1]
  {
    SplitConcat(path, part);
    SplitWhole(part);
    ResolveAppend([], Split(path), [part]);
    LastPart(Segments(path), part);
  }

  lemma LastPart(stack: seq<string>, part: string)
    ensures Resolve(stack, [part]) ==
      if part == "" || part == "." then stack
      else if part != ".." then stack + [part]
      else if stack == [] then []
      else stack[..|stack| - 1]
  {
    assert [part][1..] == [];
    assert Resolve(stack, []) == stack && Resolve(stack + [part], []) == stack + [part];
    assert Resolve(Pop(stack), []) == Pop(stack);
  }

  lemma SegmentsOfOne(part: string)
    requires '/' !in part
    ensures Segments(part) == if part == "" || part == "." || part == ".." then [] else [part]
  {
    SplitWhole(part);
    LastPart([], part);
    assert [] + [part] == [part];
  }

  /** `resolvePath`: an absolute path stands for itself, another one is read from the base. */
  function Combined(base: string, path: string): string {
    if path != "" && path[0] == '/' then path
    else if base == "/" then "/" + path
    else base + "/" + path
  }

  lemma CombinedSegments(base: string, path: string)
    ensures
      Segments(Combined(base, path)) ==
      if path != "" && path[0] == '/' then Segments(path) else Resolve(Segments(base), Split(path))
  {
    if path == "" || path[0] != '/' {
      SplitConcat(base, path);
      ResolveAppend([], Split(base), Split(path));
      if base == "/" {
        LeadingSlash(path);
        assert Split("/") == ["", ""];
      }
    }
  }

  /** Resolving against a base is resolving against its normal form. */
  lemma ResolvingAgainstNormalForm(base: string, path: string)
    ensures Segments(Combined(Absolute(Segments(base)), path)) == Segments(Combined(base, path))
  {
    CombinedSegments(base, path);
    CombinedSegments(Absolute(Segments(base)), path);
    NormalizingIsIdempotent(base);
  }
}
