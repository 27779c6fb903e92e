/** Types and machine-integer bounds shared by the whole model. */
module Common {

  datatype Option<+T> = None | Some(value: T)

  datatype Result<+T, +E> = Ok(value: T) | Err(error: E)

  const U32_MAX: nat := 0xFFFF_FFFF
  const U64_MAX: nat := 0xFFFF_FFFF_FFFF_FFFF
  const I64_MAX: int := 0x7FFF_FFFF_FFFF_FFFF
  const I64_MIN: int := -0x8000_0000_0000_0000

  type u32 = n: nat | n <= U32_MAX
  type u64 = n: nat | n <= U64_MAX

  type byte = n: nat | n < 256

  function Pow2(k: nat): (p: nat)
    ensures p > 0
  {
    if k == 0 then 1 else 2 * Pow2(k - 1)
  }

  lemma {:induction false} Pow2Sum(j: nat, k: nat)
    ensures Pow2(j + k) == Pow2(j) * Pow2(k)
  {
    if k > 0 {
      Pow2Sum(j, k - 1);
    }
  }

  /** `u32::saturating_add`. */
  function SatAdd32(a: nat, b: nat): u32 {
    if a + b <= U32_MAX then a + b else U32_MAX
  }

  function Min(a: int, b: int): int {
    if a <= b then a else b
  }

  function Max(a: int, b: int): int {
    if a >= b then a else b
  }

  /** A subset of a finite set is no larger. */
  lemma {:induction false} SubsetCardinality<T>(a: set<T>, b: set<T>)
    requires a <= b
    ensures |a| <= |b|
    decreases |a|
  {
    if a != {} {
      var x :| x in a;
      SubsetCardinality(a - {x}, b - {x});
    }
  }

  predicate Lacks(s: string, c: char) { forall i | 0 <= i < |s| :: s[i] != c }

  lemma SplitAtLast(a: string, b: string, x: string, y: string, c: char)
    requires a + [c] + b == x + [c] + y && Lacks(b, c) && Lacks(y, c)
    ensures a == x && b == y
  {
    var s := a + [c] + b;
    assert s[|a|] == c && (x + [c] + y)[|x|] == c;
    assert a == s[..|a|] && x == (x + [c] + y)[..|x|];
    assert b == s[|a| + 1..] && y == (x + [c] + y)[|x| + 1..];
  }

  lemma SplitAtFirst(a: string, b: string, x: string, y: string, c: char)
    requires a + [c] + b == x + [c] + y && Lacks(a, c) && Lacks(x, c)
    ensures a == x && b == y
  {
    var s := a + [c] + b;
    assert s[|a|] == c && (x + [c] + y)[|x|] == c;
    assert a == s[..|a|] && x == (x + [c] + y)[..|x|];
    assert b == s[|a| + 1..] && y == (x + [c] + y)[|x| + 1..];
  }
}
