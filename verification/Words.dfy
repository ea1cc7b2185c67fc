/** Fixed-width words and the small arithmetic facts shared by every module. */
module Words {

  datatype Option<T> = None | Some(value: T)

  const U16: nat := 0x1_0000
  const U32: nat := 0x1_0000_0000
  const U64: nat := 0x1_0000_0000_0000_0000

  type byte = x: nat | x < 0x100
  type u16 = x: nat | x < U16
  type u32 = x: nat | x < U32
  type u64 = x: nat | x < U64

  function Min(a: nat, b: nat): nat {
    if a < b then a else b
  }

  function Max(a: nat, b: nat): nat {
    if a < b then b else a
  }

  /** What a 64-bit unsigned operation leaves of the mathematical result. */
  function Wrap64(x: int): (r: u64)
    ensures 0 <= x < U64 ==> r == x
    ensures r == x % U64
  {
    if 0 <= x < U64 then x else x % U64
  }

  /** Time since `start`; 0 when the clock went backwards. */
  function Age(now: u64, start: u64): u64 {
    if now > start then now - start else 0
  }

  /** A saturating 32-bit increment. */
  function Bump(n: u32): u32 {
    if n < U32 - 1 then n + 1 else n
  }

  lemma MulMono(a: nat, b: nat, c: nat)
    requires a <= b
    ensures a * c <= b * c
  {
  }

  lemma Distribute(a: int, b: int, c: int)
    ensures (a + b) * c == a * c + b * c
  {
  }

  lemma FloorBounds(x: nat, d: nat)
    requires d > 0
    ensures (x / d) * d <= x < (x / d) * d + d
  {
  }

  /** Division as the unique quotient. */
  lemma DivUnique(x: nat, d: nat, q: nat)
    requires d > 0 && q * d <= x < q * d + d
    ensures x / d == q
  {
    var y := x / d;
    assert x == y * d + x % d;
    if y < q { MulMono(y + 1, q, d); }
    if y > q { MulMono(q + 1, y, d); }
  }

  lemma DivCancel(a: nat, d: nat)
    requires d > 0
    ensures (a * d) / d == a
  {
    DivUnique(a * d, d, a);
  }

  lemma DivMono(a: nat, b: nat, d: nat)
    requires d > 0 && a <= b
    ensures a / d <= b / d
  {
    if b / d < a / d { MulMono(b / d + 1, a / d, d); }
  }
}
