/**
 The normalizers themselves, each with its own preparation of the string and its own loop, and how their answers
 compare.
 */
module PathNormalizers {
  import opened Wrappers
  import opened Paths

  // ---------------------------------------------------------------- preparation of the string

  function Slashed(s: string): (r: string)
    ensures |r| == |s| && forall i :: 0 <= i < |s| ==> r[i] == if s[i] == '\\' then '/' else s[i]
  {
    if s == "" then "" else [if s[0] == '\\' then '/' else s[0]] + Slashed(s[1..])
  }

  lemma SlashedConcat(a: string, b: string)
    ensures Slashed(a + b) == Slashed(a) + Slashed(b)
  {
  }

  /** A backslash separates as a slash does. */
  lemma BackslashSeparates(a: string, b: string)
    ensures Slashed(a + "\\" + b) == Slashed(a) + "/" + Slashed(b)
    ensures Slashed(a + "/" + b) == Slashed(a) + "/" + Slashed(b)
  {
    SlashedConcat(a + "\\", b);
    SlashedConcat(a, "\\");
    SlashedConcat(a + "/", b);
    SlashedConcat(a, "/");
    assert Slashed("\\") == "/" && Slashed("/") == "/";
  }

  /** White space and line terminators. */
  predicate IsSpace(c: char) {
    c in " \t\n\r\U{000B}\U{000C}\U{00A0}\U{1680}\U{2028}\U{2029}\U{202F}\U{205F}\U{3000}\U{FEFF}" ||
    '\U{2000}' <= c <= '\U{200A}'
  }

  function TrimStart(s: string): string {
    if s != "" && IsSpace(s[0]) then TrimStart(s[1..]) else s
  }

  function TrimEnd(s: string): string {
    if s != "" && IsSpace(s[|s| - 1]) then TrimEnd(s[..|s| - 1]) else s
  }

  function Trim(s: string): string {
    TrimEnd(TrimStart(s))
  }

  /** What is trimmed, by code: white space and line terminators of section 12 of ECMA-262. */
  lemma TrimmedCharacters(c: char)
    ensures var code := c as int;
      Trim([c]) == "" <==>
        || 0x9 <= code <= 0xD || code == 0x20 || code == 0xA0 || code == 0xFEFF || code == 0x1680
        || 0x2000 <= code <= 0x200A || code == 0x2028 || code == 0x2029 || code == 0x202F || code == 0x205F
        || code == 0x3000
  {
    SpaceCodes(c);
    assert [c][1..] == "" && TrimStart("") == "" && TrimEnd("") == "";
    assert TrimStart([c]) == (if IsSpace(c) then "" else [c]);
    assert !IsSpace(c) ==> TrimEnd([c]) == [c];
  }

  lemma SpaceCodes(c: char)
    ensures var code := c as int;
      IsSpace(c) <==>
        || 0x9 <= code <= 0xD || code == 0x20 || code == 0xA0 || code == 0xFEFF || code == 0x1680
        || 0x2000 <= code <= 0x200A || code == 0x2028 || code == 0x2029 || code == 0x202F || code == 0x205F
        || code == 0x3000
  {
    var table := " \t\n\r\U{000B}\U{000C}\U{00A0}\U{1680}\U{2028}\U{2029}\U{202F}\U{205F}\U{3000}\U{FEFF}";
    assert table[0] == ' ' && table[1] == '\t' && table[2] == '\n' && table[3] == '\r';
    assert table[4] as int == 0xB && table[5] as int == 0xC && table[6] as int == 0xA0 && table[7] as int == 0x1680;
    assert table[8] as int == 0x2028 && table[9] as int == 0x2029 && table[10] as int == 0x202F;
    assert table[11] as int == 0x205F && table[12] as int == 0x3000 && table[13] as int == 0xFEFF;
    assert |table| == 14;
  }

  predicate StartsWith(s: string, prefix: string) {
    |s| >= |prefix| && s[..|prefix|] == prefix
  }

  /** Runs of slashes become one slash. */
  function Collapse(s: string): string {
    if |s| < 2 then s
    else if s[0] == '/' && s[1] == '/' then Collapse(s[1..])
    else [s[0]] + Collapse(s[1..])
  }

  function StripSlashes(s: string): string {
    if s != "" && s[0] == '/' then StripSlashes(s[1..]) else s
  }

  function Names(parts: seq<string>): seq<string> {
    if parts == [] then []
    else if Noise(parts[0]) then Names(parts[1..])
    else [parts[0]] + Names(parts[1..])
  }

  lemma {:induction false} ResolveSkipsNoise(stack: seq<string>, parts: seq<string>)
    ensures Resolve(stack, Names(parts)) == Resolve(stack, parts)
    decreases |parts|
  {
    if parts == [] {
    } else {
      var next :=
        if Noise(parts[0]) then stack else if parts[0] == ".." then Pop(stack) else stack + [parts[0]];
      ResolveSkipsNoise(next, parts[1..]);
    }
  }

  lemma {:induction false} StripKeepsSegments(s: string)
    ensures Segments(StripSlashes(s)) == Segments(s)
  {
    if s != "" && s[0] == '/' {
      StripKeepsSegments(s[1..]);
      LeadingSlash(s[1..]);
      assert s == "/" + s[1..];
    }
  }

  lemma {:induction false} CollapseKeepsNames(s: string)
    ensures Split(Collapse(s))[0] == Split(s)[0]
    ensures Names(Split(Collapse(s))[1..]) == Names(Split(s)[1..])
  {
    if |s| >= 2 {
      CollapseKeepsNames(s[1..]);
      var a, b := Split(Collapse(s[1..])), Split(s[1..]);
      if s[0] == '/' && s[1] == '/' {
        assert Split(s)[1..] == b && b == [""] + b[1..];
      } else {
        assert Collapse(s)[1..] == Collapse(s[1..]);
        if s[0] == '/' {
          assert Split(s)[1..] == b && Split(Collapse(s))[1..] == a;
          assert a == [a[0]] + a[1..] && b == [b[0]] + b[1..];
        }
      }
    }
  }

  lemma CollapseKeepsSegments(s: string)
    ensures Segments(Collapse(s)) == Segments(s)
  {
    var a, b := Split(Collapse(s)), Split(s);
    CollapseKeepsNames(s);
    assert a == [a[0]] + a[1..] && b == [b[0]] + b[1..];
    ResolveSkipsNoise([], a);
    ResolveSkipsNoise([], b);
  }

  // ---------------------------------------------------------------- the clamping loops

  /** The filter: what is not noise. */
  method FilterNoise(parts: seq<string>) returns (filtered: seq<string>)
    ensures filtered == Names(parts)
  {
    filtered := [];
    for i := 0 to |parts|
      invariant Names(parts) == filtered + Names(parts[i..])
    {
      if parts[i] != "" && parts[i] != "." {
        filtered := filtered + [parts[i]];
      }
    }
  }

  /** The loop over parts from which the noise was removed before. */
  method ResolveFiltered(parts: seq<string>) returns (resolved: seq<string>)
    ensures resolved == Resolve([], parts)
  {
    var filtered := FilterNoise(parts);
    NamesAreNames(parts);
    ResolveSkipsNoise([], parts);
    resolved := [];
    for i := 0 to |filtered|
      invariant Resolve([], filtered) == Resolve(resolved, filtered[i..])
    {
      assert !Noise(filtered[i]) && filtered[i..][0] == filtered[i] && filtered[i..][1..] == filtered[i + 1..];
      if filtered[i] == ".." {
        if |resolved| > 0 {
          resolved := resolved[..|resolved| - 1];
        }
      } else {
        resolved := resolved + [filtered[i]];
      }
    }
  }

  lemma {:induction false} NamesAreNames(parts: seq<string>)
    ensures forall i :: 0 <= i < |Names(parts)| ==> !Noise(Names(parts)[i])
  {
    if parts == [] {
    } else {
      NamesAreNames(parts[1..]);
    }
  }

  /** One trailing slash is dropped, and a leading one added. */
  method Prepare(path: string) returns (normalized: string)
    requires path != ""
    ensures Segments(normalized) == Segments(path)
  {
    normalized := path;
    if path[|path| - 1] == '/' && path != "/" {
      normalized := path[..|path| - 1];
      TrailingSlash(normalized);
      assert path == normalized + "/";
    }
    if !StartsWith(normalized, "/") {
      LeadingSlash(normalized);
      normalized := "/" + normalized;
    }
  }

  /** The path of the names that are left of a path. */
  function NormalForm(path: string): string {
    Absolute(Segments(path))
  }

  /** The same without the leading slash, backslashes read as slashes. */
  function CompilerForm(fileName: string): string {
    Join(Segments(Slashed(fileName)))
  }

  /** `normalizePath` of the session filesystem. */
  method NormalizePath(path: string) returns (result: string)
    ensures result == NormalForm(path)
  {
    if path == "" || path == "/" {
      assert Split("") == [""] && Split("/") == ["", ""];
      return "/";
    }
    var normalized := Prepare(path);
    var resolved := ResolveFiltered(Split(normalized));
    return "/" + Join(resolved);
  }

  /** `normalizeVirtualFsPath` of the runtime. */
  method NormalizeVirtualFsPath(path: string) returns (result: string)
    ensures result == NormalForm(path)
  {
    if path == "" || path == "/" {
      assert Split("") == [""] && Split("/") == ["", ""];
      return "/";
    }
    var normalized := Prepare(path);
    var resolved := ResolveFiltered(Split(normalized));
    return if |resolved| == 0 then "/" else "/" + Join(resolved);
  }

  /** `normalizeCompilerPath`: no leading slash, and backslashes are slashes. */
  method NormalizeCompilerPath(fileName: string) returns (result: string)
    ensures result == CompilerForm(fileName)
  {
    var normalized := Collapse(StripSlashes(Slashed(fileName)));
    CollapseKeepsSegments(StripSlashes(Slashed(fileName)));
    StripKeepsSegments(Slashed(fileName));
    var parts := Split(normalized);
    var resolvedParts := [];
    for i := 0 to |parts|
      invariant Resolve([], parts) == Resolve(resolvedParts, parts[i..])
    {
      var part := parts[i];
      if part == "" || part == "." {
        continue;
      }
      if part == ".." {
        if |resolvedParts| > 0 {
          resolvedParts := resolvedParts[..|resolvedParts| - 1];
        }
        continue;
      }
      resolvedParts := resolvedParts + [part];
    }
    return Join(resolvedParts);
  }

  // ---------------------------------------------------------------- the rejecting loops

  datatype PathError = NulByte | NotInSandbox | LeavesSandbox

  /** The loop that rejects a ".." on the empty stack. */
  method ResolveOrReject(parts: seq<string>) returns (resolved: Option<seq<string>>)
    ensures resolved == ResolveStrictly([], parts)
  {
    var stack := [];
    for i := 0 to |parts|
      invariant ResolveStrictly([], parts) == ResolveStrictly(stack, parts[i..])
    {
      var part := parts[i];
      if part == "" || part == "." {
        continue;
      }
      if part == ".." {
        if |stack| == 0 {
          return None;
        }
        stack := stack[..|stack| - 1];
        continue;
      }
      stack := stack + [part];
    }
    return Some(stack);
  }

  /** The normal form of the parts, or the error when some prefix of them leaves the root. */
  ghost function AbsoluteOrError(parts: seq<string>): Result<string, PathError> {
    if StaysInside(parts, 0) then Ok(Absolute(Resolve([], parts))) else Err(LeavesSandbox)
  }

  ghost function RelativeOrError(parts: seq<string>): Result<string, PathError> {
    if StaysInside(parts, 0) then Ok(Join(Resolve([], parts))) else Err(LeavesSandbox)
  }

  /** What `normalizePathSync` answers, symbolic links aside. */
  ghost function SyncAnswer(path: string): Result<string, PathError> {
    if '\0' in path then Err(NulByte) else AbsoluteOrError(Split(Trim(Slashed(path))))
  }

  method NormalizePathSync(path: string) returns (result: Result<string, PathError>)
    ensures result == SyncAnswer(path)
  {
    if '\0' in path {
      return Err(NulByte);
    }
    var input := Trim(Slashed(path));
    var absoluteish := if input == "" then "/" else input;
    var candidate := if StartsWith(absoluteish, "/") then absoluteish else "/" + absoluteish;
    AbsoluteishSame(input);
    var resolved := ResolveOrReject(Split(candidate));
    StrictIff([], Split(candidate));
    if resolved == None {
      return Err(LeavesSandbox);
    }
    assert "/" + Join([]) == "/";
    return Ok(if |resolved.value| > 0 then "/" + Join(resolved.value) else "/");
  }

  lemma AbsoluteishSame(input: string)
    ensures
      var absoluteish := if input == "" then "/" else input;
      var candidate := if StartsWith(absoluteish, "/") then absoluteish else "/" + absoluteish;
      && Segments(candidate) == Segments(input)
      && (StaysInside(Split(candidate), 0) <==> StaysInside(Split(input), 0))
  {
    LeadingSlash(input);
    assert ("/" + input)[1..] == input;
    StaysInsideStep("", Split(input), 0);
    assert Depth([""]) == 0;
    if input == "" { assert "/" + input == "/"; }
  }

  function Trimmed(parts: seq<string>): (r: seq<string>)
    ensures |r| == |parts| && forall i :: 0 <= i < |r| ==> r[i] == Trim(parts[i])
  {
    seq(|parts|, i requires 0 <= i < |parts| => Trim(parts[i]))
  }

  const SANDBOX := "/sandbox"

  predicate InSandbox(input: string) {
    input == SANDBOX || StartsWith(input, SANDBOX + "/")
  }

  /** What is left of a path after its sandbox prefix, if any. */
  function Relative(input: string): string {
    if input == SANDBOX then ""
    else if StartsWith(input, SANDBOX + "/") then input[|SANDBOX| + 1..]
    else input
  }

  /** What `normalizeVirtualPath` answers. */
  ghost function VirtualAnswer(path: string, allowRootAbsolute: bool): Result<string, PathError> {
    var input := Trim(Slashed(path));
    if '\0' in path then Err(NulByte)
    else if StartsWith(input, "/") && input != "/" && !InSandbox(input) && !allowRootAbsolute then Err(NotInSandbox)
    else RelativeOrError(Trimmed(Split(Relative(input))))
  }

  method NormalizeVirtualPath(path: string, allowRootAbsolute: bool) returns (result: Result<string, PathError>)
    ensures result == VirtualAnswer(path, allowRootAbsolute)
  {
    if '\0' in path {
      return Err(NulByte);
    }
    var input := Trim(Slashed(path));
    if input == "" || input == "." || input == "/" || input == SANDBOX {
      ShortInputs(input);
      return Ok("");
    }
    var candidate := input;
    if StartsWith(candidate, SANDBOX + "/") {
      candidate := candidate[|SANDBOX| + 1..];
    } else if allowRootAbsolute && StartsWith(candidate, "/") {
      candidate := candidate[1..];
      LeadingSlashTrimmed(candidate);
      assert input == "/" + candidate;
    } else if StartsWith(candidate, "/") {
      return Err(NotInSandbox);
    }
    var parts := Trimmed(Split(candidate));
    var resolved := ResolveOrReject(parts);
    StrictIff([], parts);
    if resolved == None {
      return Err(LeavesSandbox);
    }
    return Ok(Join(resolved.value));
  }

  lemma ShortInputs(input: string)
    requires input == "" || input == "." || input == "/" || input == SANDBOX
    ensures
      var parts := Trimmed(Split(Relative(input)));
      StaysInside(parts, 0) && Join(Resolve([], parts)) == ""
  {
    var relative := Relative(input);
    assert relative == "" || relative == "." || relative == "/";
    var split := Split(relative);
    assert "."[1..] == "" && "/"[1..] == "" && ['.'] + "" == ".";
    assert split == [""] || split == ["."] || split == ["", ""];
    NoiseOnly(split);
  }

  lemma NoiseOnly(split: seq<string>)
    requires split == [""] || split == ["."] || split == ["", ""]
    ensures StaysInside(Trimmed(split), 0) && Resolve([], Trimmed(split)) == []
  {
    assert Trim("") == "" && Trim(".") == ".";
    assert Trimmed(split) == split;
    assert [""][1..] == [] && ["."][1..] == [] && ["", ""][1..] == [""];
    assert ResolveStrictly([], split) == Some([]);
    StrictIff([], split);
  }

  lemma LeadingSlashTrimmed(candidate: string)
    ensures
      var a, b := Trimmed(Split("/" + candidate)), Trimmed(Split(candidate));
      Resolve([], a) == Resolve([], b) && (StaysInside(a, 0) <==> StaysInside(b, 0))
  {
    var a, b := Trimmed(Split("/" + candidate)), Trimmed(Split(candidate));
    assert ("/" + candidate)[1..] == candidate;
    assert Trim("") == "";
    assert a == [""] + b;
    assert a[1..] == b;
    StaysInsideStep("", b, 0);
    assert Depth([""]) == 0;
  }

  // ---------------------------------------------------------------- how the answers compare

  /** What the rejecting normalizers make of a path before they look at its parts. */
  function Input(path: string): string {
    Trim(Slashed(path))
  }

  /** No part has white space at its ends. */
  predicate PartsTrimmed(path: string) {
    var parts := Split(Input(path));
    forall i :: 0 <= i < |parts| ==> Trim(parts[i]) == parts[i]
  }

  lemma PartsAreKept(path: string)
    requires PartsTrimmed(path)
    ensures Trimmed(Split(Input(path))) == Split(Input(path))
  {
  }

  /**
   One semantics: a path without backslash, NUL, white space at the ends of its parts and a sandbox prefix means the
   same names to all five normalizers, and the rejecting ones reject it exactly when some prefix of it leaves the root.
   */
  lemma OneSemantics(path: string)
    requires Slashed(path) == path && Trim(path) == path && '\0' !in path && PartsTrimmed(path) && !InSandbox(path)
    ensures "/" + CompilerForm(path) == NormalForm(path)
    ensures SyncAnswer(path) == if StaysInside(Split(path), 0) then Ok(NormalForm(path)) else Err(LeavesSandbox)
    ensures
      VirtualAnswer(path, true) == if StaysInside(Split(path), 0) then Ok(CompilerForm(path)) else Err(LeavesSandbox)
    ensures
      VirtualAnswer(path, false) ==
      if StartsWith(path, "/") && path != "/" then Err(NotInSandbox) else VirtualAnswer(path, true)
  {
    PartsAreKept(path);
  }

  /** The two answers name one path, or both reject it. */
  predicate Agree(virtual: Result<string, PathError>, sync: Result<string, PathError>) {
    match virtual
    case Ok(relative) => sync == Ok("/" + relative)
    case Err(_) => sync.Err?
  }

  /** The asynchronous and the synchronous calls of LocalSessionFs read the path alike. */
  ghost predicate CallsAgree(path: string) {
    Agree(VirtualAnswer(path, true), SyncAnswer(path))
  }

  /** Neither the first nor the last character is white space. */
  predicate Tight(s: string) {
    s == "" || (!IsSpace(s[0]) && !IsSpace(s[|s| - 1]))
  }

  lemma {:induction false} TrimStartBegins(s: string)
    ensures TrimStart(s) == "" || !IsSpace(TrimStart(s)[0])
    ensures |TrimStart(s)| <= |s|
    ensures s != "" && IsSpace(s[0]) ==> |TrimStart(s)| < |s|
  {
    if s == "" || !IsSpace(s[0]) {
    } else {
      TrimStartBegins(s[1..]);
    }
  }

  lemma {:induction false} TrimEndEnds(s: string)
    ensures var t := TrimEnd(s); t == "" || (!IsSpace(t[|t| - 1]) && t[0] == s[0])
    ensures |TrimEnd(s)| <= |s|
    ensures s != "" && IsSpace(s[|s| - 1]) ==> |TrimEnd(s)| < |s|
  {
    if s == "" || !IsSpace(s[|s| - 1]) {
    } else {
      TrimEndEnds(s[..|s| - 1]);
    }
  }

  lemma TightIffTrimmed(s: string)
    ensures Tight(Trim(s))
    ensures Trim(s) == s <==> Tight(s)
  {
    TrimStartBegins(s);
    TrimEndEnds(TrimStart(s));
  }

  lemma TrimAddsNothing(s: string)
    ensures forall c :: c in Trim(s) ==> c in s
  {
    StartAddsNothing(s);
    EndAddsNothing(TrimStart(s));
  }

  lemma {:induction false} StartAddsNothing(s: string)
    ensures forall c :: c in TrimStart(s) ==> c in s
  {
    if s == "" || !IsSpace(s[0]) {
    } else {
      StartAddsNothing(s[1..]);
    }
  }

  lemma {:induction false} EndAddsNothing(s: string)
    ensures forall c :: c in TrimEnd(s) ==> c in s
  {
    if s == "" || !IsSpace(s[|s| - 1]) {
    } else {
      EndAddsNothing(s[..|s| - 1]);
    }
  }

  lemma SameNames(a: seq<string>, b: seq<string>)
    requires ProperNames(a) && ProperNames(b) && Join(a) == Join(b)
    ensures a == b
  {
    NormalFormReadsBack(a);
    NormalFormReadsBack(b);
  }

  // ---------------------------------------------------------------- exactly when they agree

  /** Trimming leaves the part what it is: a name, a step up, or nothing. */
  predicate KindKept(part: string) {
    Trim(part) == part || (!Noise(Trim(part)) && Trim(part) != "..")
  }

  predicate KindsKept(parts: seq<string>) {
    forall i :: 0 <= i < |parts| ==> KindKept(parts[i])
  }

  lemma TrimmedStep(part: string)
    ensures Depth([Trim(part)]) <= Depth([part])
    ensures Depth([Trim(part)]) == Depth([part]) <==> KindKept(part)
  {
    TightIffTrimmed(part);
    assert [part][1..] == [] && [Trim(part)][1..] == [];
  }

  lemma DepthStep(part: string, rest: seq<string>)
    ensures Depth([part] + rest) == Depth([part]) + Depth(rest)
  {
    assert ([part] + rest)[1..] == rest && [part][1..] == [];
  }

  lemma TrimmedCons(parts: seq<string>)
    requires parts != []
    ensures Trimmed(parts) == [Trim(parts[0])] + Trimmed(parts[1..])
    ensures KindsKept(parts) <==> KindKept(parts[0]) && KindsKept(parts[1..])
  {
    assert parts == [parts[0]] + parts[1..];
  }

  /** Trimmed parts go down no further, and as far only when all stay what they are. */
  lemma {:induction false} TrimmedDepth(parts: seq<string>)
    ensures Depth(Trimmed(parts)) <= Depth(parts)
    ensures Depth(Trimmed(parts)) == Depth(parts) <==> KindsKept(parts)
  {
    if parts == [] {
    } else {
      TrimmedStep(parts[0]);
      TrimmedDepth(parts[1..]);
      TrimmedCons(parts);
      DepthStep(parts[0], parts[1..]);
      DepthStep(Trim(parts[0]), Trimmed(parts[1..]));
      assert parts == [parts[0]] + parts[1..];
    }
  }

  lemma TrimmedPrefix(parts: seq<string>, k: nat)
    requires k <= |parts|
    ensures Trimmed(parts)[..k] == Trimmed(parts[..k])
  {
  }

  lemma TrimmedInside(parts: seq<string>, level: nat)
    ensures StaysInside(Trimmed(parts), level) ==> StaysInside(parts, level)
    ensures KindsKept(parts) ==> (StaysInside(Trimmed(parts), level) <==> StaysInside(parts, level))
  {
    forall k | 0 <= k <= |parts|
      ensures Depth(Trimmed(parts)[..k]) <= Depth(parts[..k])
      ensures KindsKept(parts) ==> Depth(Trimmed(parts)[..k]) == Depth(parts[..k])
    {
      TrimmedPrefix(parts, k);
      TrimmedDepth(parts[..k]);
      assert KindsKept(parts) ==> KindsKept(parts[..k]);
    }
  }

  /** Parts that stay inside leave as many names as they go down. */
  lemma {:induction false} ResolvedLength(stack: seq<string>, parts: seq<string>)
    requires StaysInside(parts, |stack|)
    ensures |Resolve(stack, parts)| == |stack| + Depth(parts)
    decreases |parts|
  {
    if parts == [] {
    } else {
      var part, rest := parts[0], parts[1..];
      assert parts == [part] + rest;
      StaysInsideStep(part, rest, |stack|);
      assert Depth([part]) == if Noise(part) then 0 else if part == ".." then -1 else 1;
      if Noise(part) {
        ResolvedLength(stack, rest);
      } else if part == ".." {
        assert stack != [] by { assert |stack| + Depth(parts[..1]) >= 0 && parts[..1] == [part]; }
        ResolvedLength(Pop(stack), rest);
      } else {
        ResolvedLength(stack + [part], rest);
      }
    }
  }

  lemma TrimmedAppend(a: seq<string>, part: string)
    ensures Trimmed(a + [part]) == Trimmed(a) + [Trim(part)]
    ensures Trimmed(Pop(a)) == Pop(Trimmed(a))
  {
  }

  lemma TrimmedKind(part: string)
    requires KindKept(part)
    ensures Noise(Trim(part)) == Noise(part) && (Trim(part) == ".." <==> part == "..")
  {
    TightIffTrimmed(part);
  }

  /** What one part makes of the stack. */
  function Pushed(stack: seq<string>, part: string): seq<string> {
    if Noise(part) then stack else if part == ".." then Pop(stack) else stack + [part]
  }

  lemma PushedTrimmed(stack: seq<string>, part: string)
    requires KindKept(part)
    ensures Trimmed(Pushed(stack, part)) == Pushed(Trimmed(stack), Trim(part))
  {
    TrimmedKind(part);
    TrimmedAppend(stack, part);
  }

  lemma ResolvePushes(stack: seq<string>, parts: seq<string>)
    requires parts != []
    ensures Resolve(stack, parts) == Resolve(Pushed(stack, parts[0]), parts[1..])
  {
  }

  /** When all parts stay what they are, trimming the parts is trimming the names. */
  lemma {:induction false} ResolveTrimmed(stack: seq<string>, parts: seq<string>)
    requires KindsKept(parts)
    ensures Resolve(Trimmed(stack), Trimmed(parts)) == Trimmed(Resolve(stack, parts))
    decreases |parts|
  {
    if parts == [] {
    } else {
      assert KindKept(parts[0]);
      assert Trimmed(parts)[1..] == Trimmed(parts[1..]);
      ResolvePushes(stack, parts);
      ResolvePushes(Trimmed(stack), Trimmed(parts));
      PushedTrimmed(stack, parts[0]);
      ResolveTrimmed(Pushed(stack, parts[0]), parts[1..]);
    }
  }

  lemma TrimmedNoSlash(parts: seq<string>)
    requires forall i :: 0 <= i < |parts| ==> '/' !in parts[i]
    ensures forall i :: 0 <= i < |Trimmed(parts)| ==> '/' !in Trimmed(parts)[i]
  {
    forall i | 0 <= i < |parts| ensures '/' !in Trim(parts[i]) {
      TrimAddsNothing(parts[i]);
    }
  }

  /** No name of the normal form has white space at its ends. */
  predicate NamesTrimmed(names: seq<string>) {
    forall i :: 0 <= i < |names| ==> Trim(names[i]) == names[i]
  }

  /** When no part leaves the root, the names are the same exactly when trimming changes nothing. */
  lemma SameNamesIff(parts: seq<string>)
    requires (forall i :: 0 <= i < |parts| ==> '/' !in parts[i]) && StaysInside(parts, 0)
    ensures StaysInside(Trimmed(parts), 0) && Join(Resolve([], Trimmed(parts))) == Join(Resolve([], parts)) <==>
      KindsKept(parts) && NamesTrimmed(Resolve([], parts))
  {
    var names, trimmed := Resolve([], parts), Resolve([], Trimmed(parts));
    TrimmedInside(parts, 0);
    if KindsKept(parts) {
      ResolveTrimmed([], parts);
      assert NamesTrimmed(names) <==> Trimmed(names) == names;
    }
    if StaysInside(Trimmed(parts), 0) && Join(trimmed) == Join(names) {
      TrimmedNoSlash(parts);
      ResolveProper([], parts);
      ResolveProper([], Trimmed(parts));
      SameNames(trimmed, names);
      ResolvedLength([], parts);
      ResolvedLength([], Trimmed(parts));
      TrimmedDepth(parts);
    }
  }

  /** The answers outside the sandbox prefix: they agree when the parts are rejected, or trimming changes nothing. */
  lemma PartsAgreeIff(parts: seq<string>)
    requires forall i :: 0 <= i < |parts| ==> '/' !in parts[i]
    ensures Agree(RelativeOrError(Trimmed(parts)), AbsoluteOrError(parts)) <==>
      (AbsoluteOrError(parts).Err? || (KindsKept(parts) && NamesTrimmed(Resolve([], parts))))
  {
    var names, trimmed := Resolve([], parts), Resolve([], Trimmed(parts));
    TrimmedInside(parts, 0);
    if StaysInside(parts, 0) {
      SameNamesIff(parts);
      assert ("/" + Join(trimmed))[1..] == Join(trimmed) && Absolute(names)[1..] == Join(names);
    }
  }

  lemma SandboxIsProper()
    ensures ProperName("sandbox")
  {
    SplitWhole("sandbox");
  }

  /** The answers to a path with sandbox prefix, in terms of the parts behind the prefix. */
  lemma SandboxTail(path: string) returns (tail: seq<string>)
    requires '\0' !in path && InSandbox(Input(path))
    ensures forall i :: 0 <= i < |tail| ==> '/' !in tail[i]
    ensures VirtualAnswer(path, true) == RelativeOrError(Trimmed(tail))
    ensures SyncAnswer(path) == AbsoluteOrError(["", "sandbox"] + tail)
  {
    var input := Input(path);
    if input == SANDBOX {
      tail := [];
      assert Trim("") == "" && Split("") == [""] && Trimmed([""]) == [""];
      SandboxItself(tail);
      assert ["", "sandbox"] + tail == ["", "sandbox"];
    } else {
      tail := Split(Relative(input));
      SandboxPrefixSplit(input);
      PartsHaveNoSlash(Relative(input));
    }
  }

  lemma SandboxItself(tail: seq<string>)
    requires tail == []
    ensures Split(SANDBOX) == ["", "sandbox"] && RelativeOrError(Split(Relative(SANDBOX))) == RelativeOrError(tail)
  {
    SandboxSplit();
    assert Relative(SANDBOX) == "" && Split("") == [""];
    StaysInsideStep("", [], 0);
    assert [""] + [] == [""] && [""][1..] == [] && Depth([""]) == 0;
  }

  lemma SandboxPrefixSplit(path: string)
    requires StartsWith(path, SANDBOX + "/")
    ensures Split(path) == ["", "sandbox"] + Split(Relative(path))
  {
    SandboxSplit();
    SplitConcat(SANDBOX, Relative(path));
    assert path == (SANDBOX + "/") + path[|SANDBOX| + 1..];
  }

  lemma SandboxSplit()
    ensures Split(SANDBOX) == ["", "sandbox"]
  {
    SplitWhole("sandbox");
    assert SANDBOX[1..] == "sandbox";
  }

  lemma PrefixParts(
    name: string, tail: seq<string>, virtual: Result<string, PathError>, sync: Result<string, PathError>)
    requires ProperName(name) && forall i :: 0 <= i < |tail| ==> '/' !in tail[i]
    requires virtual == RelativeOrError(Trimmed(tail)) && sync == AbsoluteOrError(["", name] + tail)
    ensures Agree(virtual, sync) <==> sync.Err?
  {
    SandboxParts(name, tail);
    TrimmedInside(tail, 0);
    if StaysInside(Trimmed(tail), 0) {
      PrefixShows(name, tail);
    }
  }

  /** With the prefix there is one name more than without. */
  lemma PrefixShows(name: string, tail: seq<string>)
    requires ProperName(name) && (forall i :: 0 <= i < |tail| ==> '/' !in tail[i])
    requires StaysInside(tail, 0) && StaysInside(Trimmed(tail), 0)
    ensures "/" + Join(Resolve([], Trimmed(tail))) != Absolute([name] + Resolve([], tail))
  {
    var short, long := Resolve([], Trimmed(tail)), [name] + Resolve([], tail);
    TrimmedDepth(tail);
    ResolvedLength([], tail);
    ResolvedLength([], Trimmed(tail));
    TrimmedNoSlash(tail);
    ResolveProper([], tail);
    ResolveProper([], Trimmed(tail));
    if "/" + Join(short) == Absolute(long) {
      assert ("/" + Join(short))[1..] == Join(short) && Absolute(long)[1..] == Join(long);
      SameNames(short, long);
    }
  }

  lemma SandboxParts(name: string, parts: seq<string>)
    requires ProperName(name)
    ensures
      var all := ["", name] + parts;
      && (StaysInside(all, 0) <==> StaysInside(parts, 1))
      && (StaysInside(parts, 0) ==> StaysInside(parts, 1))
      && (StaysInside(parts, 0) ==> Resolve([], all) == [name] + Resolve([], parts))
  {
    var all := ["", name] + parts;
    assert all == [""] + ([name] + parts);
    StaysInsideStep("", [name] + parts, 0);
    StaysInsideStep(name, parts, 0);
    assert Depth([""]) == 0 && Depth([name]) == 1;
    assert all[1..] == [name] + parts && ([name] + parts)[1..] == parts;
    if StaysInside(parts, 0) {
      ResolveOnTop([name], [], parts);
      assert [name] + [] == [] + [name] == [name];
    }
  }

  /** Parts that never go above where they start leave what is below alone. */
  lemma {:induction false} ResolveOnTop(below: seq<string>, stack: seq<string>, parts: seq<string>)
    requires StaysInside(parts, |stack|)
    ensures Resolve(below + stack, parts) == below + Resolve(stack, parts)
    decreases |parts|
  {
    if parts == [] {
    } else {
      var part, rest := parts[0], parts[1..];
      assert parts == [part] + rest;
      StaysInsideStep(part, rest, |stack|);
      assert Depth([part]) == if Noise(part) then 0 else if part == ".." then -1 else 1;
      if Noise(part) {
        ResolveOnTop(below, stack, rest);
      } else if part == ".." {
        assert stack != [] by { assert |stack| + Depth(parts[..1]) >= 0 && parts[..1] == [part]; }
        assert Pop(below + stack) == below + Pop(stack);
        ResolveOnTop(below, Pop(stack), rest);
      } else {
        assert below + stack + [part] == below + (stack + [part]);
        ResolveOnTop(below, stack + [part], rest);
      }
    }
  }

  /**
   On every path: the asynchronous and the synchronous calls agree exactly when the synchronous one rejects the path, or
   when there is no sandbox prefix, trimming leaves every part what it is, and no name that is left has white space at
   its ends.
   */
  lemma CallsAgreeIff(path: string)
    ensures CallsAgree(path) <==>
      || SyncAnswer(path).Err?
      || (!InSandbox(Input(path)) && KindsKept(Split(Input(path))) && NamesTrimmed(Segments(Input(path))))
  {
    if '\0' in path {
    } else if !InSandbox(Input(path)) {
      PartsHaveNoSlash(Input(path));
      PartsAgreeIff(Split(Input(path)));
    } else {
      var tail := SandboxTail(path);
      SandboxIsProper();
      PrefixParts("sandbox", tail, VirtualAnswer(path, true), SyncAnswer(path));
    }
  }

  /** So they part on "a/ b", which has no sandbox prefix. */
  lemma WhiteSpaceShows()
    ensures !CallsAgree("a/ b") && !InSandbox(Input("a/ b"))
  {
    SpacedInput("a/ b");
    SpacedParts();
    StrictIff([], ["a", " b"]);
    TightIffTrimmed(" b");
    assert Segments("a/ b")[1] == " b";
    CallsAgreeIff("a/ b");
  }

  lemma SpacedInput(path: string)
    requires path == "a/ b"
    ensures Input(path) == path && '\0' !in path
  {
    TightIffTrimmed(path);
    assert forall i :: 0 <= i < |path| ==> Slashed(path)[i] == path[i];
  }

  lemma SpacedParts()
    ensures Split("a/ b") == ["a", " b"]
    ensures ResolveStrictly([], ["a", " b"]) == Some(["a", " b"])
  {
    SplitConcat("a", " b");
    SplitWhole("a");
    SplitWhole(" b");
    assert "a" + "/" + " b" == "a/ b";
    assert ["a", " b"][1..] == [" b"] && [" b"][1..] == [];
    assert [] + ["a"] == ["a"] && ["a"] + [" b"] == ["a", " b"];
    assert ResolveStrictly(["a"], [" b"]) == Some(["a", " b"]);
  }

  // ---------------------------------------------------------------- parents

  /** The place of the last slash. */
  function LastSlash(s: string): (k: int)
    ensures -1 <= k < |s|
  {
    if s == "" then -1 else if s[|s| - 1] == '/' then |s| - 1 else LastSlash(s[..|s| - 1])
  }

  /** `dirname` of the session filesystem. */
  function Dirname(path: string): string {
    var normalized := NormalForm(path);
    if normalized == "/" then "/"
    else
      var lastSlash := LastSlash(normalized);
      if lastSlash <= 0 then "/" else normalized[..lastSlash]
  }

  lemma {:induction false} LastSlashOf(front: string, name: string)
    requires '/' !in name
    ensures LastSlash(front + "/" + name) == |front|
  {
    var s := front + "/" + name;
    if name == "" {
    } else {
      LastSlashOf(front, name[..|name| - 1]);
      assert s[..|s| - 1] == front + "/" + name[..|name| - 1];
    }
  }

  lemma {:induction false} JoinSnoc(front: seq<string>, name: string)
    ensures Join(front + [name]) == if front == [] then name else Join(front) + "/" + name
  {
    if front == [] {
    } else {
      JoinSnoc(front[1..], name);
      assert (front + [name])[1..] == front[1..] + [name];
    }
  }

  /** The parent of a path is the list without its last name. */
  lemma DirnameIsParent(path: string)
    ensures Dirname(path) == Absolute(Pop(Segments(path)))
  {
    var segments := Segments(path);
    SegmentsAreProper(path);
    if segments != [] {
      var front, name := Pop(segments), segments[|segments| - 1];
      assert segments == front + [name];
      LastSlashOfPath(front, name);
    }
  }

  lemma LastSlashOfPath(front: seq<string>, name: string)
    requires '/' !in name && name != ""
    ensures
      var path := Absolute(front + [name]);
      && path != "/"
      && LastSlash(path) == (if front == [] then 0 else |Absolute(front)|)
      && (front != [] ==> path[..|Absolute(front)|] == Absolute(front))
  {
    JoinSnoc(front, name);
    if front == [] {
      LastSlashOf("", name);
      assert "" + "/" + name == "/" + name;
    } else {
      LastSlashOf(Absolute(front), name);
      assert Absolute(front) + "/" + name == "/" + (Join(front) + "/" + name);
    }
  }
}
