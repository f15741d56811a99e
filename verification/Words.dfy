/** The 32-bit machine words of the kernel, as integers with explicit wrap-around, and what else
    every module needs. */
module Words {
  const WORD_SIZE := 0x1_0000_0000
  const PAGE := 0x1000

  datatype Option<+T> = None | Some(value: T)

  type word = x: int | 0 <= x < 0x1_0000_0000

  /** What is left of an integer when it is stored in a 32-bit word. */
  function Wrap(x: int): word {
    x % 0x1_0000_0000
  }

  /** a + b on words, wrapping. */
  function Add(a: word, b: word): word {
    if a + b < WORD_SIZE then a + b else a + b - WORD_SIZE
  }

  /** a - b on words, wrapping. */
  function Sub(a: word, b: word): word {
    if a >= b then a - b else a - b + WORD_SIZE
  }

  /** x % m, by repeated subtraction. */
  function Rem(x: nat, m: nat): (r: nat)
    requires m > 0
    ensures r < m
  {
    if x < m then x else Rem(x - m, m)
  }

  lemma {:induction false} RemIsMod(x: nat, m: nat)
    requires m > 0
    ensures Rem(x, m) == x % m
  {
    if x >= m {
      RemIsMod(x - m, m);
      assert x - m == (x - m) / m * m + (x - m) % m;
      ModUnique((x - m) / m + 1, m, (x - m) % m, x);
    }
  }

  lemma ModUnique(q: int, m: int, r: int, x: int)
    requires 0 <= r < m && x == q * m + r
    ensures x % m == r
  {
    var d := x / m - q;
    assert d * m == r - x % m;
    assert d >= 1 ==> d * m >= m;
    assert d <= -1 ==> d * m <= -m;
  }

  lemma DivUnique(q: int, m: int, r: int, x: int)
    requires 0 <= r < m && x == q * m + r
    ensures x / m == q
  {
    ModUnique(q, m, r, x);
    assert (x / m - q) * m == 0;
  }

  /** A field of a word that is made of a multiple of some page and an offset. */
  lemma FieldOf(n: nat, r: nat, low: nat, width: nat, rest: nat)
    requires low > 0 && width > 0 && rest > 0
    ensures (n * rest * width * low + r) / low % width == r / low % width
  {
    var q := r / low;
    DivUnique(n * rest * width + q, low, r % low, n * rest * width * low + r);
    var p := q / width;
    ModUnique(n * rest + p, width, q % width, n * rest * width + q);
  }

  lemma {:induction false} RemAdd(x: nat, y: nat, m: nat)
    requires m > 0
    ensures Rem(Rem(x, m) + y, m) == Rem(x + y, m)
    decreases x
  {
    if x >= m {
      RemAdd(x - m, y, m);
    }
  }

  /** Bitwise "and", on integers of any width. */
  function BitAnd(x: nat, y: nat): nat
    decreases x
  {
    if x == 0 then 0 else 2 * BitAnd(x / 2, y / 2) + (x % 2) * (y % 2)
  }

  function Pow2(k: nat): (p: nat)
    ensures p > 0
  {
    if k == 0 then 1 else 2 * Pow2(k - 1)
  }

  predicate PowerOfTwo(a: nat) {
    exists k: nat | k <= a :: Pow2(k) == a
  }

  /** Masking with a power of two less one is taking the remainder. */
  lemma {:induction false} MaskIsRem(x: nat, k: nat)
    ensures BitAnd(x, Pow2(k) - 1) == Rem(x, Pow2(k))
    decreases k
  {
    if k == 0 {
      AndZero(x);
      RemIsMod(x, 1);
    } else {
      MaskIsRem(x / 2, k - 1);
      RemDouble(x / 2, x % 2, Pow2(k - 1));
      assert (Pow2(k) - 1) / 2 == Pow2(k - 1) - 1 && (Pow2(k) - 1) % 2 == 1;
    }
  }

  lemma {:induction false} AndZero(x: nat)
    ensures BitAnd(x, 0) == 0
  {
    if x > 0 {
      AndZero(x / 2);
    }
  }

  lemma {:induction false} RemDouble(x: nat, bit: nat, m: nat)
    requires m > 0 && bit < 2
    ensures Rem(2 * x + bit, 2 * m) == 2 * Rem(x, m) + bit
    decreases x
  {
    if x >= m {
      RemDouble(x - m, bit, m);
    }
  }

  lemma AlignedByMask(x: nat, a: nat)
    requires PowerOfTwo(a)
    ensures a > 0 && BitAnd(x, a - 1) == Rem(x, a)
  {
    var k: nat :| k <= a && Pow2(k) == a;
    MaskIsRem(x, k);
  }

  /** x & flag != 0, for a flag of one bit. */
  predicate HasFlag(x: word, flag: word)
    requires flag > 0
  {
    x / flag % 2 == 1
  }

  lemma FlagIs(x: word, flag: word)
    requires flag > 0
    ensures HasFlag(x, flag) <==> x / flag % 2 == 1
  {
  }

  const IRQS_DISABLED: word := 0x80

  function SetCarry(x: word): word {
    if x / 0x2000_0000 % 2 == 1 then x else x + 0x2000_0000
  }

  function ClearCarry(x: word): word {
    if x / 0x2000_0000 % 2 == 1 then x - 0x2000_0000 else x
  }

  /** Setting or clearing the carry flag leaves the other bits alone. */
  lemma CarryIs(x: word)
    ensures HasFlag(SetCarry(x), 0x2000_0000) && !HasFlag(ClearCarry(x), 0x2000_0000)
    ensures SetCarry(x) % 0x2000_0000 == x % 0x2000_0000 == ClearCarry(x) % 0x2000_0000
    ensures SetCarry(x) / 0x4000_0000 == x / 0x4000_0000 == ClearCarry(x) / 0x4000_0000
  {
  }
}
