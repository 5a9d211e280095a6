/** 64-bit words that count up and down and wrap (atomic.h). */
module Words {

  const WORD := 0x1_0000_0000_0000_0000

  /** The int64_t that n increments of 0 leave. */
  function Wrap(n: nat): int {
    if n % WORD < WORD / 2 then n % WORD else n % WORD - WORD
  }

  /** AtomicAdd(&count, 1) */
  function Increment(count: int): int {
    if count == WORD / 2 - 1 then -(WORD / 2) else count + 1
  }

  lemma {:induction false} WrapNext(n: nat)
    ensures Wrap(n + 1) == Increment(Wrap(n))
  {
  }

  /** AtomicSub(&count, 1) */
  function Decrement(count: int): int {
    if count == -(WORD / 2) then WORD / 2 - 1 else count - 1
  }

  lemma {:induction false} WrapEven(n: nat)
    ensures Wrap(n) % 2 == n % 2
  {
  }

  /** Two counts are the same word exactly when they differ by a multiple of 2^64. */
  lemma {:induction false} WrapSame(m: nat, n: nat)
    requires m <= n && Wrap(m) == Wrap(n)
    ensures m == n || n - m >= WORD
  {
  }
}
