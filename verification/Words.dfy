/** Machine words, and the arithmetic of sequence numbers.

    Every operation of the control block that touches a sequence number is written
    once, over an `Arith`: `Wrapping` is the program's uint32 arithmetic, `Exact`
    the same operation on unbounded numbers.  Timestamps always wrap. */
module Words {

  const M32: int := 0x1_0000_0000
  const H32: int := 0x8000_0000

  type u8 = x: int | 0 <= x < 0x100
  type u16 = x: int | 0 <= x < 0x1_0000
  type u32 = x: int | 0 <= x < 0x1_0000_0000
  type i32 = x: int | -0x8000_0000 <= x < 0x8000_0000
  type byte = u8

  function Min(a: int, b: int): int { if a <= b then a else b }

  function Max(a: int, b: int): int { if a >= b then a else b }

  /** Conversion to uint32. */
  function Wrap32(x: int): u32 { x % M32 }

  /** Conversion to int32. */
  function Signed32(x: int): i32 {
    var w := x % M32;
    if w < H32 then w else w - M32
  }

  /** The signed distance between two uint32 readings. */
  function ITimeDiff(later: int, earlier: int): i32 { Signed32(later - earlier) }

  datatype Arith = Exact | Wrapping

  /** x + k in the given arithmetic. */
  function Add(m: Arith, x: int, k: int): int {
    if m.Exact? then x + k else (x + k) % M32
  }

  /** The signed comparison of two sequence numbers. */
  function Diff(m: Arith, later: int, earlier: int): int {
    if m.Exact? then later - earlier else ITimeDiff(later, earlier)
  }

  /** How far x lies above base; never negative when wrapping. */
  function Off(m: Arith, x: int, base: int): int {
    if m.Exact? then x - base else (x - base) % M32
  }

  /** The representation of an unbounded sequence number. */
  function Rep(m: Arith, x: int): int {
    if m.Exact? then x else x % M32
  }

  predicate Represented(m: Arith, x: int) { Rep(m, x) == x }

  lemma AddAdd(m: Arith, x: int, i: int, j: int)
    ensures Add(m, Add(m, x, i), j) == Add(m, x, i + j)
  {}

  lemma OffAdd(m: Arith, x: int, k: int)
    requires 0 <= k < M32
    ensures Off(m, Add(m, x, k), x) == k
  {}

  lemma AddOff(m: Arith, x: int, base: int)
    requires Represented(m, x)
    ensures Add(m, base, Off(m, x, base)) == x
  {}

  /** Moving the base up by j lowers every offset that is at least j by j. */
  lemma OffShift(m: Arith, x: int, base: int, j: int)
    requires 0 <= j <= Off(m, x, base)
    ensures Off(m, x, Add(m, base, j)) == Off(m, x, base) - j
  {}

  /** Comparing with the j-th number above base. */
  lemma DiffAdd(m: Arith, x: int, base: int, j: int)
    requires 0 <= j < 0x1_0000
    requires Diff(m, x, base) >= -H32 + 0x1_0000 || Diff(m, x, base) >= 0
    ensures Diff(m, x, Add(m, base, j)) == Diff(m, x, base) - j
  {}

  /** Comparing two numbers above the same base. */
  lemma AddsDiff(m: Arith, base: int, i: int, j: int)
    requires 0 <= i < 0x1_0000 && 0 <= j < 0x1_0000
    ensures Diff(m, Add(m, base, i), Add(m, base, j)) == i - j
  {}

  /** The two signed comparisons of a window test say that the offset lies in the window. */
  lemma WindowTest(m: Arith, x: int, base: int, len: int)
    requires 0 <= len < 0x1_0000
    ensures Diff(m, x, base) >= 0 && Diff(m, x, Add(m, base, len)) < 0
       <==> 0 <= Off(m, x, base) < len
  {}

  /** Within half the number space, uint32 comparison is integer comparison. */
  lemma DiffNear(x: int, base: int)
    requires -H32 <= x - base < H32
    ensures Diff(Wrapping, x % M32, base % M32) == x - base
  {}
}
