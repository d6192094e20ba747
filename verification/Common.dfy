/** Small shared types and arithmetic: optional values, bytes, machine words, powers of two. */
module Common {

  datatype Option<+T> = None | Some(value: T)

  /** One octet, as C++ `std::byte` / `uint8_t`. */
  type Byte = b: int | 0 <= b < 256

  /** A 32-bit unsigned word, as C++ `uint32_t`. */
  const WORD_32: int := 0x1_0000_0000
  type Word32 = w: int | 0 <= w < WORD_32

  /** `uint32_t` subtraction: the difference modulo 2^32. */
  function Sub32(a: Word32, b: Word32): (r: Word32)
    ensures a >= b ==> r == a - b
    ensures a < b ==> r == a - b + WORD_32
  {
    if a >= b then a - b else a - b + WORD_32
  }

  /** The 32-bit clock at a real time in milliseconds. */
  function Clock(t: nat): Word32 {
    t % WORD_32
  }

  lemma ElapsedModulo(t: nat, since: nat)
    requires since <= t
    ensures Sub32(Clock(t), Clock(since)) == (t - since) % WORD_32
  {
  }

  function Pow2(n: nat): (r: nat)
    ensures r > 0
  {
    if n == 0 then 1 else 2 * Pow2(n - 1)
  }

  lemma {:induction false} Pow2Grows(m: nat, n: nat)
    requires m <= n
    ensures Pow2(m) <= Pow2(n)
    decreases n
  {
    if m == n {
    } else {
      Pow2Grows(m, n - 1);
    }
  }

  lemma ProductsGrow(a: int, b: int, d: nat)
    ensures a <= b ==> a * d <= b * d
  {
  }
}
