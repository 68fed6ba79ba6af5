/**
 The hash of a working state (services/backend/convex/workingStateHash.ts): the changes are sorted by path, printed into
 one string of UTF-16 code units, and folded with 32-bit wrap-around. It is the base-31 polynomial of the printed
 string, reduced to a signed 32-bit integer.
 */
module WorkingStateHash {
  import opened Wrappers
  import opened Sorting

  type Unit = u: int | 0 <= u < 0x1_0000

  type Text = seq<Unit>

  datatype Change = Change(
    path: Text,
    content: Option<Text>,
    blobId: Option<Text>,
    downloadUrl: Option<Text>,
    isDeleted: bool)

  const COLON: Text := [58]
  const BAR: Text := [124]
  const LETTER_D: Text := [68]

  function Payload(change: Change): Text {
    if change.isDeleted then LETTER_D
    else if change.content.Some? then change.content.value
    else if change.blobId.Some? then change.blobId.value
    else if change.downloadUrl.Some? then change.downloadUrl.value
    else []
  }

  function Print(change: Change): Text {
    change.path + COLON + Payload(change)
  }

  function PrintAll(changes: seq<Change>): Text {
    if changes == [] then []
    else if |changes| == 1 then Print(changes[0])
    else Print(changes[0]) + BAR + PrintAll(changes[1..])
  }

  /** The comparison of changes by path, for a comparison of paths. */
  function ByPath(le: (Text, Text) -> bool): (Change, Change) -> bool {
    (a: Change, b: Change) => le(a.path, b.path)
  }

  // ---------------------------------------------------------------- 32-bit arithmetic

  const TWO_31 := 0x8000_0000
  const TWO_32 := 0x1_0000_0000
  const TWO_53 := 0x20_0000_0000_0000

  /** What the bit operators make of an integer: the signed 32-bit value with the same remainder. */
  function ToInt32(x: int): (r: int)
    ensures -TWO_31 <= r < TWO_31
    ensures (x - r) % TWO_32 == 0
  {
    (x + TWO_31) % TWO_32 - TWO_31
  }

  /** It is the only one. */
  lemma ToInt32Unique(x: int, r: int, k: int)
    requires -TWO_31 <= r < TWO_31 && x == r + k * TWO_32
    ensures ToInt32(x) == r
  {
    assert x + TWO_31 == (r + TWO_31) + k * TWO_32;
  }

  function Pow31(n: nat): nat {
    if n == 0 then 1 else 31 * Pow31(n - 1)
  }

  /** The polynomial with the code units as coefficients, the first one the highest. */
  function Polynomial(s: Text): nat {
    if s == [] then 0 else s[0] * Pow31(|s| - 1) + Polynomial(s[1..])
  }

  lemma {:induction false} PolynomialAppend(s: Text, c: Unit)
    ensures Polynomial(s + [c]) == 31 * Polynomial(s) + c
  {
    if s == [] {
      assert (s + [c])[1..] == [];
      assert Pow31(0) == 1;
    } else {
      var t := s + [c];
      assert t[1..] == s[1..] + [c];
      PolynomialAppend(s[1..], c);
      assert Pow31(|s|) == 31 * Pow31(|s| - 1);
      assert t[0] * (31 * Pow31(|s| - 1)) == 31 * (s[0] * Pow31(|s| - 1));
    }
  }

  /** One turn of the loop, on the reduced value, is one turn on the polynomial. */
  lemma TurnReduces(p: int, hash: int, c: Unit)
    requires hash == ToInt32(p)
    ensures ToInt32(ToInt32(hash * 32) - hash + c) == ToInt32(31 * p + c)
  {
    var shifted := ToInt32(hash * 32);
    var next := shifted - hash + c;
    var r := ToInt32(next);
    var a := (p - hash) / TWO_32;
    var b := (hash * 32 - shifted) / TWO_32;
    var d := (next - r) / TWO_32;
    assert 31 * p + c == r + (d + b + 31 * a) * TWO_32;
    ToInt32Unique(31 * p + c, r, d + b + 31 * a);
  }

  // ---------------------------------------------------------------- the loop

  /** The numbers of the turn stay far below the range in which doubles are exact integers. */
  predicate TurnExact(hash: int, c: Unit) {
    -TWO_53 < hash * 32 < TWO_53 && -TWO_53 < ToInt32(hash * 32) - hash + c < TWO_53
  }

  /** So they do in every turn of the loop, whatever the text. */
  lemma EveryTurnExact(data: Text, i: nat)
    requires i < |data|
    ensures TurnExact(ToInt32(Polynomial(data[..i])), data[i])
  {
    var unit: Unit := data[i];
    assert 0 <= unit < 0x1_0000;
  }

  method RollingHash(data: Text) returns (hash: int)
    ensures hash == ToInt32(Polynomial(data))
    ensures -TWO_31 <= hash < TWO_31
  {
    hash := 0;
    for i := 0 to |data|
      invariant hash == ToInt32(Polynomial(data[..i]))
    {
      var unit := data[i];
      EveryTurnExact(data, i);
      TurnReduces(Polynomial(data[..i]), hash, unit);
      PolynomialAppend(data[..i], unit);
      assert data[..i + 1] == data[..i] + [unit];
      hash := ToInt32(hash * 32) - hash + unit;
      hash := ToInt32(hash);
    }
    assert data[..|data|] == data;
  }

  function Abs(x: int): nat {
    if x < 0 then -x else x
  }

  /** The digits of a number in base 36. */
  function Base36(n: nat): (digits: seq<nat>)
    ensures digits != [] && forall i :: 0 <= i < |digits| ==> digits[i] < 36
  {
    if n < 36 then [n] else Base36(n / 36) + [n % 36]
  }

  function FromBase36(digits: seq<nat>): nat {
    if digits == [] then 0 else 36 * FromBase36(digits[..|digits| - 1]) + digits[|digits| - 1]
  }

  lemma {:induction false} Base36ReadsBack(n: nat)
    ensures FromBase36(Base36(n)) == n
  {
    if n < 36 {
      assert [n][..0] == [];
      assert FromBase36([]) == 0;
    } else {
      Base36ReadsBack(n / 36);
      assert Base36(n)[..|Base36(n)| - 1] == Base36(n / 36);
    }
  }

  /** The number behind the hash of a working state. */
  function StateHash(changes: seq<Change>, le: (Text, Text) -> bool): nat {
    Abs(ToInt32(Polynomial(PrintAll(Sort(changes, ByPath(le))))))
  }

  method ComputeWorkingStateHash(changes: seq<Change>, le: (Text, Text) -> bool) returns (digits: seq<nat>)
    ensures FromBase36(digits) == StateHash(changes, le)
    ensures FromBase36(digits) <= TWO_31
    ensures digits == Base36(FromBase36(digits))
  {
    var sorted := Sort(changes, ByPath(le));
    var data := PrintAll(sorted);
    var hash := RollingHash(data);
    Base36ReadsBack(Abs(hash));
    digits := Base36(Abs(hash));
  }
}
