/** Machine integers of the receiver, written out on unbounded ones.

    Rust's `u8`, `u16`, `u32` and `u64` become subset types; wrap-around,
    sign reinterpretation and truncating division are explicit functions.
 */
module Numbers {
  type byte = x: int | 0 <= x < 0x100
  type u16 = x: int | 0 <= x < 0x1_0000
  type u32 = x: int | 0 <= x < 0x1_0000_0000
  type u64 = x: int | 0 <= x < 0x1_0000_0000_0000_0000

  datatype Option<+T> = None | Some(value: T)

  function Max(a: int, b: int): int {
    if a < b then b else a
  }

  function Min(a: int, b: int): int {
    if a < b then a else b
  }

  function Wrap16(n: int): u16 {
    n % 0x1_0000
  }

  function Wrap32(n: int): u32 {
    n % 0x1_0000_0000
  }

  function Wrap64(n: int): u64 {
    n % 0x1_0000_0000_0000_0000
  }

  /** A `u32` reinterpreted as an `i32`. */
  function Signed32(n: u32): int {
    if n < 0x8000_0000 then n else n - 0x1_0000_0000
  }

  /** Division as Rust does it on signed integers: toward zero. */
  function TruncDiv(a: int, b: int): int
    requires b > 0
  {
    if a >= 0 then a / b else -((-a) / b)
  }

  lemma MulMono(x: int, y: int, b: nat)
    requires x <= y
    ensures x * b <= y * b
  {
    assert (y - x) * b == y * b - x * b;
  }

  lemma Distributes(x: int, y: int, b: int)
    ensures (x + y) * b == x * b + y * b
  {
  }

  /** Signed distance from `b` to `a` on the circle of 16-bit sequence numbers. */
  function SeqDiff(a: u16, b: u16): int {
    var d := Wrap16(a - b);
    if d < 0x8000 then d else d - 0x1_0000
  }

  /** On numbers that stand for unbounded positions less than half a circle
      apart, the circle distance is the true distance. */
  lemma SeqDiffIsDistance(p: int, q: int)
    requires -0x8000 <= p - q < 0x8000
    ensures SeqDiff(Wrap16(p), Wrap16(q)) == p - q
  {
    var a, b := p / 0x1_0000, q / 0x1_0000;
    assert p == 0x1_0000 * a + Wrap16(p) && q == 0x1_0000 * b + Wrap16(q);
  }

  /** The circle distance leads back to the number it was measured to. */
  lemma SeqDiffReaches(a: u16, q: int)
    ensures Wrap16(q + SeqDiff(a, Wrap16(q))) == a
  {
    var k := q / 0x1_0000;
    assert q == 0x1_0000 * k + Wrap16(q);
  }

  lemma Wrap16Next(p: int)
    ensures Wrap16(Wrap16(p) + 1) == Wrap16(p + 1)
  {
  }

  lemma Wrap16Turns(n: int, turns: int)
    ensures Wrap16(n + 0x1_0000 * turns) == Wrap16(n)
  {
  }

  /** Numbers that agree on the circle are some turns apart. */
  lemma TurnsBetween(m: int, n: int) returns (turns: int)
    requires Wrap16(m) == Wrap16(n)
    ensures n == m + 0x1_0000 * turns
  {
    turns := n / 0x1_0000 - m / 0x1_0000;
  }

  lemma Wrap32Shift(x: int, k: int)
    ensures Wrap32(x + 0x1_0000_0000 * k) == Wrap32(x)
  {
  }

  lemma Wrap32Add(a: int, b: int)
    ensures Wrap32(Wrap32(a) + Wrap32(b)) == Wrap32(a + b)
    ensures Wrap32(Wrap32(a) - Wrap32(b)) == Wrap32(a - b)
  {
    var q, q' := a / 0x1_0000_0000, b / 0x1_0000_0000;
    assert a == 0x1_0000_0000 * q + Wrap32(a) && b == 0x1_0000_0000 * q' + Wrap32(b);
    Wrap32Shift(Wrap32(a) + Wrap32(b), q + q');
    Wrap32Shift(Wrap32(a) - Wrap32(b), q - q');
  }
}
